/** The fan-out rule every broadcast of the relay follows: a payload goes to
    exactly those connected clients whose socket is OPEN, once each, and the
    others are skipped. */
module Broadcast {
  import opened Roster

  type Bytes = seq<bv8>

  /** A frame the server sends. A roster snapshot is the roster value that
      stands for the text `JSON.stringify(userState)`, taken at the moment it
      is sent; a relayed chat frame is the inbound message's own bytes with
      its binary flag. */
  datatype Outgoing =
    | Snapshot(roster: seq<Participant>)
    | Relayed(data: Bytes, binary: bool)

  /** A connected client as the server sees it: whether its `readyState` is
      OPEN, and the frames sent to it so far, oldest first. */
  datatype Client = Client(open: bool, outbox: seq<Outgoing>)

  /** `o.send(m)` for one client, guarded by the `readyState === OPEN` filter. */
  function DeliverTo(c: Client, m: Outgoing): Client {
    if c.open then c.(outbox := c.outbox + [m]) else c
  }

  /** The filter-then-forEach over all clients, one client after the other. */
  function DeliverAll(cs: seq<Client>, m: Outgoing): (cs': seq<Client>)
    ensures |cs'| == |cs|
  {
    if cs == [] then [] else [DeliverTo(cs[0], m)] + DeliverAll(cs[1..], m)
  }

  /** The positions of the clients that are OPEN. */
  function OpenClients(cs: seq<Client>): set<nat> {
    set i: nat | i < |cs| && cs[i].open
  }

  /** The positions whose outbox differs between two client lists. */
  function Reached(before: seq<Client>, after: seq<Client>): set<nat>
    requires |before| == |after|
  {
    set i: nat | i < |before| && after[i].outbox != before[i].outbox
  }

  /** How many times `m` occurs in an outbox. */
  function Count(q: seq<Outgoing>, m: Outgoing): nat {
    multiset(q)[m]
  }

  /** Position by position, a broadcast acts on each client on its own. */
  lemma {:induction false} DeliverAllAt(cs: seq<Client>, m: Outgoing, i: nat)
    requires i < |cs|
    ensures DeliverAll(cs, m)[i] == DeliverTo(cs[i], m)
  {
    if i > 0 {
      DeliverAllAt(cs[1..], m, i - 1);
    }
  }

  /** A broadcast keeps every client's open flag, only appends to an outbox,
      and appends the payload exactly once to each OPEN client and never to
      any other. */
  lemma DeliveredOnceToEachOpen(cs: seq<Client>, m: Outgoing, i: nat)
    requires i < |cs|
    ensures var c' := DeliverAll(cs, m)[i];
      && c'.open == cs[i].open
      && cs[i].outbox <= c'.outbox
      && (cs[i].open ==> c'.outbox == cs[i].outbox + [m])
      && (!cs[i].open ==> c'.outbox == cs[i].outbox)
      && Count(c'.outbox, m) == Count(cs[i].outbox, m) + (if cs[i].open then 1 else 0)
  {
    DeliverAllAt(cs, m, i);
  }

  /** The clients a broadcast reaches are exactly the OPEN ones. */
  lemma ReachesExactlyOpen(cs: seq<Client>, m: Outgoing)
    ensures Reached(cs, DeliverAll(cs, m)) == OpenClients(cs)
  {
    var cs' := DeliverAll(cs, m);
    forall i: nat | i < |cs| ensures (i in Reached(cs, cs')) <==> (i in OpenClients(cs)) {
      DeliverAllAt(cs, m, i);
      assert cs[i].open ==> |cs'[i].outbox| == |cs[i].outbox| + 1;
    }
  }

  /** A broadcast leaves the set of OPEN clients as it was. */
  lemma DeliverKeepsOpen(cs: seq<Client>, m: Outgoing)
    ensures OpenClients(DeliverAll(cs, m)) == OpenClients(cs)
  {
    forall i: nat | i < |cs| ensures DeliverAll(cs, m)[i].open == cs[i].open {
      DeliverAllAt(cs, m, i);
    }
  }
}
