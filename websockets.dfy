/**
 * The WebSocket hub and its clients, run one event at a time. The hub keeps
 * an ordered list of client handles; each client owns an outbound queue that
 * broadcasts push onto and that its writer drains into frames on the socket.
 * Client handles are objects, so comparing two of them with `==` compares
 * identities, as the pointer comparisons of the Go code do.
 */
module Websockets {
  import opened Wrappers
  import opened Registry
  import Http

  newtype byte = x: int | 0 <= x < 256

  /** A serialised message as it travels on an outbound queue. */
  type Payload = seq<byte>

  /** The two gorilla/websocket message types the code writes. */
  datatype MessageType = TextMessage | CloseMessage

  datatype Frame = Frame(kind: MessageType, data: Payload)

  /**
   * The upgraded connection. The network is abstract: `remoteAddr` is what
   * `RemoteAddr().String()` answers, `failing` says which write attempts (by
   * position) the transport rejects, and `attempts` logs every write in order.
   */
  class Socket {
    const remoteAddr: string
    const failing: set<nat>
    var attempts: seq<Frame>

    constructor (remoteAddr: string, failing: set<nat>)
      ensures this.remoteAddr == remoteAddr && this.failing == failing && attempts == []
    {
      this.remoteAddr := remoteAddr;
      this.failing := failing;
      attempts := [];
    }

    /** `WriteMessage`: one frame goes out; the result says whether the transport rejected it. */
    method WriteMessage(kind: MessageType, data: Payload) returns (failed: bool)
      modifies this
      ensures attempts == old(attempts) + [Frame(kind, data)]
      ensures failed <==> |old(attempts)| in failing
    {
      failed := |attempts| in failing;
      attempts := attempts + [Frame(kind, data)];
    }
  }

  /** A `chan []byte`: what is sent on it and not yet received, oldest first. */
  class Channel {
    var items: seq<Payload>

    constructor ()
      ensures items == []
    {
      items := [];
    }

    /** `ch <- p` */
    method Send(p: Payload)
      modifies this
      ensures items == old(items) + [p]
    {
      items := items + [p];
    }
  }

  /** `n` copies of `p`. */
  function Copies(p: Payload, n: nat): (r: seq<Payload>)
    ensures |r| == n && forall i :: 0 <= i < n ==> r[i] == p
  {
    if n == 0 then [] else Copies(p, n - 1) + [p]
  }

  /** The frames the writer sends for the queue `q`. */
  function TextFrames(q: seq<Payload>): seq<Frame>
    decreases |q|
  {
    if q == [] then [] else TextFrames(q[..|q| - 1]) + [Frame(TextMessage, q[|q| - 1])]
  }

  /** Everything the writer of a client sends once its queue, holding `q`, is closed. */
  function WriterFrames(q: seq<Payload>): seq<Frame> {
    TextFrames(q) + [Frame(CloseMessage, [])]
  }

  lemma {:induction false} TextFramesShape(q: seq<Payload>)
    ensures |TextFrames(q)| == |q|
    ensures forall i :: 0 <= i < |q| ==> TextFrames(q)[i] == Frame(TextMessage, q[i])
    decreases |q|
  {
    if q != [] {
      TextFramesShape(q[..|q| - 1]);
    }
  }

  /**
   * The writer sends N + 1 frames for N queued messages: one text frame per
   * message, in queue order, and then a single close frame with an empty
   * payload, which is the last frame.
   */
  lemma WriterFramesShape(q: seq<Payload>)
    ensures |WriterFrames(q)| == |q| + 1
    ensures forall i :: 0 <= i < |q| ==> WriterFrames(q)[i] == Frame(TextMessage, q[i])
    ensures WriterFrames(q)[|q|] == Frame(CloseMessage, [])
    ensures forall i :: 0 <= i < |q| ==> WriterFrames(q)[i].kind != CloseMessage
  {
    TextFramesShape(q);
  }

  /** One connected party: its hub, its address-derived id, its socket and its outbound queue. */
  class Client {
    const hub: Hub
    var id: string
    const socket: Socket
    const outbound: Channel

    /** `NewClient`: the given hub and socket, an empty id and a new, empty queue. */
    constructor NewClient(hub: Hub, socket: Socket)
      ensures this.hub == hub && this.socket == socket && id == ""
      ensures fresh(outbound) && outbound.items == []
    {
      this.hub := hub;
      this.socket := socket;
      id := "";
      outbound := new Channel();
    }

    /**
     * `Write`, run once the queue has been closed: every queued message goes
     * out as a text frame, in order, whether or not earlier writes failed, and
     * then one close frame.
     */
    method Write()
      modifies outbound, socket
      ensures outbound.items == []
      ensures socket.attempts == old(socket.attempts) + WriterFrames(old(outbound.items))
    {
      ghost var q := outbound.items;
      ghost var k := 0;
      while outbound.items != []
        invariant 0 <= k <= |q| && outbound.items == q[k..]
        invariant socket.attempts == old(socket.attempts) + TextFrames(q[..k])
        decreases |outbound.items|
      {
        var message := outbound.items[0];
        outbound.items := outbound.items[1..];
        // the error is discarded: a failed write does not end the loop
        var _ := socket.WriteMessage(TextMessage, message);
        assert q[..k + 1][..k] == q[..k];
        k := k + 1;
      }
      assert q[..k] == q;
      var _ := socket.WriteMessage(CloseMessage, []);
    }
  }

  /** The entries of `cs` a broadcast that ignores `ignore` sends to, in list order. */
  function Recipients(cs: seq<Client>, ignore: Client?): seq<Client>
    decreases |cs|
  {
    if cs == [] then []
    else Recipients(cs[..|cs| - 1], ignore) + (if cs[|cs| - 1] != ignore then [cs[|cs| - 1]] else [])
  }

  /** How many of the sends to `cs` land on the queue `ch`. */
  function Deliveries(cs: seq<Client>, ch: Channel): nat
    decreases |cs|
  {
    if cs == [] then 0
    else Deliveries(cs[..|cs| - 1], ch) + (if cs[|cs| - 1].outbound == ch then 1 else 0)
  }

  /** A send to `x` lands on `x`'s queue and on no other queue. */
  lemma DeliveriesAppend(cs: seq<Client>, x: Client)
    ensures forall ch :: Deliveries(cs + [x], ch) == Deliveries(cs, ch) + if x.outbound == ch then 1 else 0
  {
  }

  /** Every client owns its queue, as `NewClient` arranges by creating a new one. */
  ghost predicate OwnQueues(cs: seq<Client>) {
    forall i, j :: 0 <= i < |cs| && 0 <= j < |cs| && cs[i].outbound == cs[j].outbound ==> cs[i] == cs[j]
  }

  /**
   * A broadcast sends nothing to `ignore` and, to every other client, one
   * message per time it is listed; with `ignore` nil or not listed that is the
   * whole list.
   */
  lemma {:induction false} RecipientsSpec(cs: seq<Client>, ignore: Client?)
    ensures forall c :: c in Recipients(cs, ignore) ==> c != ignore && c in cs
    ensures forall c: Client :: c != ignore ==> multiset(Recipients(cs, ignore))[c] == multiset(cs)[c]
    ensures (ignore == null || ignore !in cs) ==> Recipients(cs, ignore) == cs
    ensures ignore != null ==> |Recipients(cs, ignore)| == |cs| - multiset(cs)[ignore]
    decreases |cs|
  {
    if cs != [] {
      var n := |cs| - 1;
      RecipientsSpec(cs[..n], ignore);
      assert cs == cs[..n] + [cs[n]];
      assert ignore !in cs ==> ignore !in cs[..n];
    }
  }

  /** With N distinct clients and `ignore` among them, a broadcast makes exactly N - 1 sends. */
  lemma BroadcastCount(cs: seq<Client>, ignore: Client)
    requires NoDup(cs) && ignore in cs
    ensures |Recipients(cs, ignore)| == |cs| - 1
  {
    RecipientsSpec(cs, ignore);
    NoDupCount(cs, ignore);
  }

  /** When nobody else in `cs` shares `c`'s queue, the sends landing there are the times `c` is listed. */
  lemma {:induction false} DeliveriesCount(cs: seq<Client>, c: Client)
    requires forall d :: d in cs && d.outbound == c.outbound ==> d == c
    ensures Deliveries(cs, c.outbound) == multiset(cs)[c]
    decreases |cs|
  {
    if cs != [] {
      var n := |cs| - 1;
      DeliveriesCount(cs[..n], c);
      assert cs == cs[..n] + [cs[n]];
    }
  }

  /**
   * What each listed client's queue receives from one broadcast: nothing for
   * `ignore`, and one payload per listing for every other client; so exactly
   * one when the list has no duplicates.
   */
  lemma BroadcastDelivery(cs: seq<Client>, ignore: Client?, c: Client)
    requires OwnQueues(cs) && c in cs
    ensures Deliveries(Recipients(cs, ignore), c.outbound) == if c == ignore then 0 else multiset(cs)[c]
    ensures NoDup(cs) && c != ignore ==> Deliveries(Recipients(cs, ignore), c.outbound) == 1
  {
    RecipientsSpec(cs, ignore);
    var rs := Recipients(cs, ignore);
    if c == ignore {
      assert c !in rs;
    }
    DeliveriesCount(rs, c);
    if NoDup(cs) && c != ignore {
      NoDupCount(cs, c);
    }
  }

  /** The registry of connected clients. */
  class Hub {
    var clients: seq<Client>

    /** `NewHub`: no client is listed. */
    constructor NewHub()
      ensures clients == []
    {
      clients := [];
    }

    /**
     * `WebSocketHandler`, with the upgrader's outcome as input. On failure it
     * answers 500 and creates nothing; on success it builds the client and
     * returns it as the value it submits on the `register` channel: the list
     * itself only changes when `Run` takes that event.
     */
    method WebSocketHandler(upgrade: Option<Socket>) returns (failure: Option<Http.Error>, submitted: Option<Client>)
      ensures clients == old(clients)
      ensures upgrade.None? ==> submitted.None?
      ensures upgrade.None? ==>
        failure == Some(Http.Error(Http.StatusInternalServerError, "Could not upgrade websocket connection"))
      ensures upgrade.Some? ==> failure.None? && submitted.Some?
      ensures upgrade.Some? ==> fresh(submitted.value) && fresh(submitted.value.outbound)
      ensures upgrade.Some? ==> submitted.value.hub == this && submitted.value.socket == upgrade.value
      ensures upgrade.Some? ==> submitted.value.id == "" && submitted.value.outbound.items == []
    {
      if upgrade.None? {
        failure := Some(Http.Error(Http.StatusInternalServerError, "Could not upgrade websocket connection"));
        submitted := None;
        return;
      }
      var client := new Client.NewClient(this, upgrade.value);
      failure, submitted := None, Some(client);
    }

    /**
     * `Run`, over the finite stream of events it receives: each register event
     * is handled by `OnConnect` and each unregister event by `OnDisconnect`, in
     * arrival order.
     */
    method Run(events: seq<Event<Client>>)
      modifies this, set e | e in events && e.Register? :: e.client
      ensures clients == Apply(old(clients), events)
      ensures forall i :: 0 <= i < |events| && events[i].Register? ==>
        events[i].client.id == events[i].client.socket.remoteAddr
    {
      var i := 0;
      while i < |events|
        invariant 0 <= i <= |events|
        invariant clients == Apply(old(clients), events[..i])
        invariant forall j :: 0 <= j < i && events[j].Register? ==>
          events[j].client.id == events[j].client.socket.remoteAddr
      {
        assert events[i] in events;
        match events[i] {
          case Register(c) => OnConnect(c);
          case Unregister(c) => OnDisconnect(c);
        }
        assert events[..i + 1][..i] == events[..i];
        i := i + 1;
      }
      assert events[..i] == events;
    }

    /** `onConnect`: the client gets its address as id and is appended; nothing checks for duplicates. */
    method OnConnect(client: Client)
      modifies this, client`id
      ensures clients == old(clients) + [client]
      ensures client.id == client.socket.remoteAddr
    {
      client.id := client.socket.remoteAddr;
      clients := clients + [client];
    }

    /** `onDisconnect`: the first entry that is `client` itself is taken out, if there is one. */
    method OnDisconnect(client: Client)
      modifies this
      ensures clients == RemoveFirst(old(clients), client)
    {
      var i := 0;
      while i < |clients|
        invariant 0 <= i <= |clients| && clients == old(clients)
        invariant client !in clients[..i]
      {
        if clients[i] == client {
          RemoveFirstAt(clients, client, i);
          clients := clients[..i] + clients[i + 1..];
          return;
        }
        assert clients[..i + 1] == clients[..i] + [clients[i]];
        i := i + 1;
      }
      assert clients[..i] == clients;
      RemoveFirstAbsent(clients, client);
    }

    /**
     * `SendMessageToClients`: the message is serialised once (`marshal`
     * stands for `json.Marshal`, whose error is dropped) and sent to every
     * listed client other than `ignore`. Each listed client's queue grows by
     * that payload once per send that lands on it; the list is not changed.
     */
    method SendMessageToClients<M>(message: M, marshal: M -> Payload, ignore: Client?)
      modifies set c | c in clients :: c.outbound
      ensures clients == old(clients)
      ensures forall c :: c in clients ==>
        c.outbound.items == old(c.outbound.items) + Copies(marshal(message), Deliveries(Recipients(clients, ignore), c.outbound))
    {
      var payload := marshal(message);
      var i := 0;
      ghost var sent: seq<Client> := [];
      while i < |clients|
        invariant 0 <= i <= |clients|
        invariant sent == Recipients(clients[..i], ignore)
        invariant forall c :: c in clients ==>
          c.outbound.items == old(c.outbound.items) + Copies(payload, Deliveries(sent, c.outbound))
      {
        var client := clients[i];
        assert clients[..i + 1][..i] == clients[..i];
        if client != ignore {
          DeliveriesAppend(sent, client);
          label before:
          client.outbound.Send(payload);
          forall c | c in clients
            ensures c.outbound.items == old(c.outbound.items) + Copies(payload, Deliveries(sent + [client], c.outbound))
          {
            var k := Deliveries(sent, c.outbound);
            if c.outbound == client.outbound {
              assert c.outbound.items == old@before(c.outbound.items) + [payload];
              assert Copies(payload, k + 1) == Copies(payload, k) + [payload];
            } else {
              assert c.outbound.items == old@before(c.outbound.items);
            }
          }
          sent := sent + [client];
        }
        i := i + 1;
      }
      assert clients[..i] == clients;
    }
  }

  /** Two connections register: the list is `[a, b]`. */
  lemma TwoClientsRegister(a: Client, b: Client)
    ensures Apply([], [Register(a), Register(b)]) == [a, b]
  {
    var events := [Register(a), Register(b)];
    assert events[..1] == [Register(a)] && events[..1][..0] == [];
    assert Apply([], events[..1]) == [a];
  }

  /**
   * A broadcast that ignores nobody, to two clients with their own queues:
   * each queue receives that one payload.
   */
  lemma TwoClientsBroadcast(a: Client, b: Client)
    requires a.outbound != b.outbound
    ensures Deliveries(Recipients([a, b], null), a.outbound) == 1
    ensures Deliveries(Recipients([a, b], null), b.outbound) == 1
  {
    var cs := [a, b];
    assert cs[..1] == [a] && cs[..1][..0] == [];
    assert Recipients([a], null) == [a];
    assert Recipients(cs, null) == cs;
    assert Deliveries([a], a.outbound) == 1 && Deliveries([a], b.outbound) == 0;
  }

  /** A connection that registers and deregisters again is not sent anything by a later broadcast. */
  lemma RegisterUnregisterBroadcast(c: Client, ignore: Client?)
    ensures Recipients(Apply([], [Register(c), Unregister(c)]), ignore) == []
  {
    RegisterThenUnregister([], c);
  }
}
