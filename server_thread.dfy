/**
 * ServerThread as the source writes it: a list of ClientInfo objects updated
 * in place, the connectedClients counter, and index loops for lookup, fan-out,
 * catch-up and the liveness sweep. The socket becomes `outbox`, the
 * GameController becomes `hooks`, and the clock is the `now` argument. Each
 * method is proved to change the state exactly as the matching function of
 * RelaySpec says.
 */
module Server {
  import opened JavaText
  import opened Wire
  import opened RelaySpec

  class ClientInfo {
    const id: int
    const addr: Address
    var lastX: Coord
    var lastY: Coord
    var currentMap: Option<string>
    var hasPos: bool
    var lastSeenMs: int

    constructor (id: int, addr: Address, now: int)
      ensures Record() == ClientRecord(id, addr, ZeroCoord, ZeroCoord, None, false, now)
    {
      this.id := id;
      this.addr := addr;
      lastX := ZeroCoord;
      lastY := ZeroCoord;
      currentMap := None;
      hasPos := false;
      lastSeenMs := now;
    }

    /** getSocketKey(). */
    function Key(): string
    {
      SocketKey(addr)
    }

    ghost function Record(): ClientRecord
      reads this
    {
      ClientRecord(id, addr, lastX, lastY, currentMap, hasPos, lastSeenMs)
    }
  }

  class ServerThread {
    var clients: seq<ClientInfo>
    var connectedClients: int
    /** Every datagram handed to the socket, oldest first. */
    var outbox: seq<Datagram>
    /** Every GameController call made, oldest first. */
    var hooks: seq<Hook>
    /** The values of the ClientInfo objects in `clients`. */
    ghost var records: seq<ClientRecord>
    /** Float.parseFloat and Float.toString. */
    const ff: FloatFormat
    /** Whether a GameController was supplied (the source checks it against null). */
    const controller: bool

    ghost predicate Valid()
      reads this`clients, this`records, this`connectedClients, clients
    {
      && Mirrors()
      && (forall i, j :: 0 <= i < j < |clients| ==> clients[i] != clients[j])
      && Inv(records, connectedClients)
    }

    /** `records` holds the current values of the ClientInfo objects, in list order. */
    ghost predicate Mirrors()
      reads this`clients, this`records, clients
    {
      && |records| == |clients|
      && (forall i :: 0 <= i < |clients| ==> clients[i].Record() == records[i])
    }

    ghost function State(): RelayState
      reads this
    {
      RelayState(records, connectedClients, outbox, hooks)
    }

    constructor (ff: FloatFormat, controller: bool)
      ensures Valid() && State() == Empty
      ensures this.ff == ff && this.controller == controller
    {
      clients := [];
      connectedClients := 0;
      outbox := [];
      hooks := [];
      records := [];
      this.ff := ff;
      this.controller := controller;
    }

    /** sendMessage: one datagram to one address. */
    method SendMessage(n: Notice, to: Address)
      modifies this`outbox
      ensures outbox == old(outbox) + [Datagram(n, to)]
      ensures Valid() == old(Valid()) && Mirrors() == old(Mirrors())
    {
      outbox := outbox + [Datagram(n, to)];
    }

    /** A call on the GameController. */
    method Notify(h: Hook)
      modifies this`hooks
      ensures hooks == old(hooks) + [h]
      ensures Valid() == old(Valid())
    {
      hooks := hooks + [h];
    }

    method Broadcast(n: Notice, exceptId: int)
      requires Valid()
      modifies this`outbox
      ensures Valid()
      ensures outbox == old(outbox) + Fanout(records, n, exceptId)
    {
      for k := 0 to |clients|
        invariant Valid()
        invariant outbox == old(outbox) + Fanout(records[..k], n, exceptId)
      {
        FanoutStep(records, k, n, exceptId);
        ghost var step := if records[k].id == exceptId then [] else [Datagram(n, records[k].addr)];
        SeqConcat(old(outbox), Fanout(records[..k], n, exceptId), step);
        SendUnlessExcepted(k, n, exceptId);
      }
      assert records[..|clients|] == records;
    }

    /** One turn of the broadcast loop: client k gets the notice unless its id is exceptId. */
    method SendUnlessExcepted(k: int, n: Notice, exceptId: int)
      requires Valid() && 0 <= k < |records|
      modifies this`outbox
      ensures Valid()
      ensures outbox == old(outbox) + (if records[k].id == exceptId then [] else [Datagram(n, records[k].addr)])
    {
      var client := clients[k];
      if client.id != exceptId {
        SendMessage(n, client.addr);
      }
    }

    /** findClientIndex: the first client with the sender's address, or -1. */
    method FindClientIndex(from: Address) returns (index: int)
      requires Valid()
      ensures index == FindIndex(records, from)
    {
      var key := SocketKey(from);
      index := 0;
      while index < |clients|
        invariant 0 <= index <= |clients|
        invariant forall i :: 0 <= i < index ==> records[i].addr != from
      {
        if key == clients[index].Key() {
          SocketKeyInjective(records[index].addr, from);
          return;
        }
        index := index + 1;
      }
      index := -1;
    }

    method HandleConnect(from: Address, parts: seq<string>, index: int, now: int)
      requires Valid()
      requires -1 <= index < |records|
      requires index == -1 ==> forall i :: 0 <= i < |records| ==> records[i].addr != from
      modifies this
      ensures Valid()
      ensures State() == Connect(old(State()), from, parts, index, now, ff, controller)
      ensures forall c :: c in clients ==> c in old(clients) || fresh(c)
    {
      if index != -1 {
        SendMessage(AlreadyConnected, from);
        return;
      }
      if connectedClients >= MaxClients {
        SendMessage(Full, from);
        return;
      }
      Accept(from, parts, now);
    }

    /** The success path of handleConnect: a new ClientInfo is admitted and welcomed. */
    method Accept(from: Address, parts: seq<string>, now: int)
      requires Valid()
      requires connectedClients < MaxClients
      requires forall i :: 0 <= i < |records| ==> records[i].addr != from
      modifies this`connectedClients, this`clients, this`records, this`outbox, this`hooks
      ensures Valid()
      ensures State() == Admitted(old(State()), from, parts, now, ff, controller)
      ensures forall c :: c in clients ==> c in old(clients) || fresh(c)
    {
      ghost var st := State();
      var newClient := Admit(from, parts, now);
      ghost var c := newClient.Record();
      SendWelcome(newClient, c, from);
      AdmittedIs(st, from, parts, now, ff, controller, c, State());
    }

    /** The datagrams of a successful Connect, in the order the source sends them. */
    method SendWelcome(newClient: ClientInfo, ghost c: ClientRecord, from: Address)
      requires Valid() && newClient.Record() == c
      modifies this`outbox, this`hooks
      ensures Valid()
      ensures outbox == old(outbox) + Welcome(records, c, from)
      ensures hooks == old(hooks) + (if c.id >= 2 && controller then [StartGame] else [])
    {
      ghost var o0 := outbox;
      ghost var hello := [Datagram(Connected(c.id), from)];
      ghost var start := if c.id >= 2 then Fanout(records, Start, -1) else [];
      SendMessage(Connected(newClient.id), from);
      AnnounceNew(newClient);
      ghost var o2 := outbox;
      SendCatchUp(from);
      ghost var o3 := outbox;
      if newClient.id >= 2 {
        Broadcast(Start, -1);
        if controller {
          Notify(StartGame);
        }
      }
      assert o2 == o0 + hello + Announce(records, c);
      assert o3 == o2 + CatchUp(records, from);
      assert outbox == o3 + start;
      SeqConcat(o0, hello, Announce(records, c));
      SeqConcat(o0, hello + Announce(records, c), CatchUp(records, from));
      SeqConcat(o0, hello + Announce(records, c) + CatchUp(records, from), start);
    }

    /** Creates the new ClientInfo, seeds it from the Connect parts and appends it. */
    method Admit(from: Address, parts: seq<string>, now: int) returns (newClient: ClientInfo)
      requires Valid()
      requires connectedClients < MaxClients
      requires forall i :: 0 <= i < |records| ==> records[i].addr != from
      modifies this`connectedClients, this`clients, this`records
      ensures fresh(newClient) && clients == old(clients) + [newClient]
      ensures connectedClients == old(connectedClients) + 1
      ensures newClient.Record() == NewClient(connectedClients, from, parts, now, ff)
      ensures records == old(records) + [newClient.Record()]
      ensures Valid()
    {
      connectedClients := connectedClients + 1;
      newClient := SeedClient(connectedClients, from, parts, now);
      clients := clients + [newClient];
      records := records + [newClient.Record()];
    }

    /** The ClientInfo of a new client, with the position and map its Connect carried. */
    method SeedClient(id: int, from: Address, parts: seq<string>, now: int) returns (c: ClientInfo)
      ensures fresh(c)
      ensures c.Record() == NewClient(id, from, parts, now, ff)
    {
      c := new ClientInfo(id, from, now);
      if |parts| >= 3 {
        var px := ff.parse(parts[1]);
        if px.Some? {
          c.lastX := px.value;
          var py := ff.parse(parts[2]);
          if py.Some? {
            c.lastY := py.value;
            c.hasPos := true;
            if |parts| >= 4 {
              c.currentMap := Some(parts[3]);
            }
          }
        }
      }
    }

    /** The broadcasts that follow a successful Connect. */
    method AnnounceNew(newClient: ClientInfo)
      requires Valid()
      modifies this`outbox
      ensures Valid()
      ensures outbox == old(outbox) + Announce(records, newClient.Record())
    {
      var id, x, y, currentMap, hasPos := newClient.id, newClient.lastX, newClient.lastY, newClient.currentMap, newClient.hasPos;
      ghost var c := newClient.Record();
      ghost var joined := Fanout(records, PlayerJoined(id), id);
      ghost var onMap := AnnounceMap(records, c);
      ghost var atPos := AnnouncePosition(records, c);
      ghost var o0 := outbox;
      Broadcast(PlayerJoined(id), id);
      ghost var o1 := outbox;
      if currentMap.Some? {
        Broadcast(MapPos(id, currentMap.value, x, y), id);
      }
      ghost var o2 := outbox;
      if hasPos {
        Broadcast(PlayerPos(id, x, y), id);
        Broadcast(Move(id, x, y), id);
        SeqConcat(o2, Fanout(records, PlayerPos(id, x, y), id), Fanout(records, Move(id, x, y), id));
      }
      assert o1 == o0 + joined;
      assert o2 == o1 + onMap;
      assert outbox == o2 + atPos;
      SeqConcat(o0, joined, onMap);
      SeqConcat(o0, joined + onMap, atPos);
    }

    /** The loop that sends the newcomer every known position and map. */
    method SendCatchUp(to: Address)
      requires Valid()
      modifies this`outbox
      ensures Valid()
      ensures outbox == old(outbox) + CatchUp(records, to)
    {
      for k := 0 to |clients|
        invariant Mirrors()
        invariant outbox == old(outbox) + CatchUp(records[..k], to)
      {
        CatchUpStep(records, k, to);
        SeqConcat(old(outbox), CatchUp(records[..k], to), CatchUpOne(records[k], to));
        SendStateOf(k, to);
      }
      assert records[..|clients|] == records;
    }

    /** One turn of the catch-up loop: the position and map of client k, if it has one. */
    method SendStateOf(k: int, to: Address)
      requires Mirrors() && 0 <= k < |records|
      modifies this`outbox
      ensures Mirrors()
      ensures outbox == old(outbox) + CatchUpOne(records[k], to)
    {
      var client := clients[k];
      if client.hasPos {
        SendMessage(PlayerPos(client.id, client.lastX, client.lastY), to);
        SendMessage(Move(client.id, client.lastX, client.lastY), to);
        if client.currentMap.Some? {
          SendMessage(MapPos(client.id, client.currentMap.value, client.lastX, client.lastY), to);
        }
      }
    }
  
    /** handlePosition. */
    method HandlePosition(parts: seq<string>, index: int)
      requires Valid() && -1 <= index < |records|
      modifies this`outbox, this`records, clients
      ensures Valid() && clients == old(clients)
      ensures State() == Position(old(State()), parts, index, ff)
    {
      if index == -1 || |parts| < 3 {
        return;
      }
      var start := if |parts| >= 4 then 2 else 1;
      var x := ff.parse(parts[start]);
      var y := ff.parse(parts[start + 1]);
      if x.Some? && y.Some? {
        MoveTo(index, x.value, y.value);
      }
    }

    /** The success path of handlePosition. */
    method MoveTo(index: int, x: Coord, y: Coord)
      requires Valid() && 0 <= index < |records|
      modifies this`outbox, this`records, clients[index]
      ensures Valid()
      ensures State() == Relocate(old(State()), index, x, y)
    {
      ghost var st := State();
      var client := clients[index];
      var id := client.id;
      SetPosition(index, x, y, client.currentMap);
      Broadcast(PlayerPos(id, x, y), id);
      Broadcast(Move(id, x, y), id);
      SeqConcat(st.outbox, Fanout(records, PlayerPos(id, x, y), id), Fanout(records, Move(id, x, y), id));
    }

    /** handleMapPos. */
    method HandleMapPos(parts: seq<string>, index: int)
      requires Valid() && -1 <= index < |records|
      modifies this`outbox, this`records, clients
      ensures Valid() && clients == old(clients)
      ensures State() == MapPosition(old(State()), parts, index, ff)
    {
      var start := if |parts| == 5 then 2 else 1;
      if index == -1 || |parts| < start + 3 {
        return;
      }
      var mapName := parts[start];
      var x := ff.parse(parts[start + 1]);
      var y := ff.parse(parts[start + 2]);
      if x.Some? && y.Some? {
        MoveToMap(index, mapName, x.value, y.value);
      }
    }

    /** The success path of handleMapPos. */
    method MoveToMap(index: int, mapName: string, x: Coord, y: Coord)
      requires Valid() && 0 <= index < |records|
      modifies this`outbox, this`records, clients[index]
      ensures Valid()
      ensures State() == Remap(old(State()), index, mapName, x, y)
    {
      var id := clients[index].id;
      SetPosition(index, x, y, Some(mapName));
      Broadcast(MapPos(id, mapName, x, y), id);
    }

    /** Stores a known position (and the given map) in client `index`. */
    method SetPosition(index: int, x: Coord, y: Coord, currentMap: Option<string>)
      requires Valid() && 0 <= index < |records|
      modifies this`records, clients[index]
      ensures Valid()
      ensures records == old(records)[index := old(records)[index].(lastX := x, lastY := y, currentMap := currentMap, hasPos := true)]
    {
      var client := clients[index];
      client.lastX := x;
      client.lastY := y;
      client.currentMap := currentMap;
      client.hasPos := true;
      InvUpdate(records, connectedClients, index, client.Record());
      records := records[index := client.Record()];
    }

    /** handleChat. */
    method HandleChat(rawMessage: string, index: int)
      requires Valid() && -1 <= index < |records|
      modifies this`outbox
      ensures Valid()
      ensures State() == ChatMessage(old(State()), rawMessage, index)
    {
      if index == -1 {
        return;
      }
      var text := ChatBody(rawMessage);
      if text == "" {
        return;
      }
      if |text| > MaxChatLength {
        text := text[..MaxChatLength];
      }
      var sender := clients[index];
      Broadcast(Chat(sender.id, text), -1);
    }

    /** Removes client i (by handleDisconnect or the sweep): the counter drops,
        the others hear PlayerLeft, and the menu comes back when nobody is left. */
    method Evict(i: int)
      requires Valid() && 0 <= i < |records|
      modifies this`clients, this`records, this`connectedClients, this`outbox, this`hooks
      ensures Valid()
      ensures State() == RelaySpec.Evict(old(State()), i, controller)
      ensures forall c :: c in clients ==> c in old(clients)
    {
      var client := clients[i];
      Unlist(i);
      Broadcast(PlayerLeft(client.id), client.id);
      if connectedClients == 0 && controller {
        Notify(BackToMenu);
      }
    }

    /** clients.remove(i) and the guarded decrement of connectedClients. */
    method Unlist(i: int)
      requires Valid() && 0 <= i < |records|
      modifies this`clients, this`records, this`connectedClients
      ensures Valid()
      ensures clients == old(clients[..i] + clients[i + 1..])
      ensures records == old(records[..i] + records[i + 1..])
      ensures connectedClients == if old(connectedClients) - 1 > 0 then old(connectedClients) - 1 else 0
    {
      InvRemove(records, connectedClients, i);
      clients := clients[..i] + clients[i + 1..];
      records := records[..i] + records[i + 1..];
      connectedClients := if connectedClients - 1 > 0 then connectedClients - 1 else 0;
    }

    /** handleDisconnect. */
    method HandleDisconnect(index: int)
      requires Valid() && -1 <= index < |records|
      modifies this`clients, this`records, this`connectedClients, this`outbox, this`hooks
      ensures Valid()
      ensures State() == Disconnect(old(State()), index, controller)
      ensures forall c :: c in clients ==> c in old(clients)
    {
      if index != -1 {
        Evict(index);
      }
    }
  
    /** Records that client `index` was heard from at `now`. */
    method Touch(index: int, now: int)
      requires Valid() && 0 <= index < |records|
      modifies this`records, clients[index]
      ensures Valid() && clients == old(clients)
      ensures State() == RelaySpec.Touch(old(State()), index, now)
    {
      var client := clients[index];
      client.lastSeenMs := now;
      InvUpdate(records, connectedClients, index, client.Record());
      records := records[index := client.Record()];
    }

    /** processMessage for the datagram text `text` from `from`, received at
        `now`; `crashed` reports the exception an all-colon datagram raises. */
    method ProcessMessage(text: string, from: Address, now: int) returns (crashed: bool)
      requires Valid()
      modifies this, clients
      ensures Valid()
      ensures (State(), crashed) == Process(old(State()), text, from, now, ff, controller)
    {
      var message := Trim(text);
      if message == "" {
        return false;
      }
      var parts := Split(message);
      var index := FindClientIndex(from);
      if index != -1 {
        Touch(index, now);
      }
      if parts == [] {
        return true;
      }
      crashed := false;
      DispatchMessage(message, parts, from, index, now);
    }

    /** The switch on the message type in processMessage. */
    method DispatchMessage(message: string, parts: seq<string>, from: Address, index: int, now: int)
      requires Valid() && parts != [] && -1 <= index < |records|
      requires index == -1 ==> forall i :: 0 <= i < |records| ==> records[i].addr != from
      modifies this, clients
      ensures Valid()
      ensures State() == Dispatch(old(State()), message, parts, from, index, now, ff, controller)
    {
      match parts[0]
      case "Connect" => HandleConnect(from, parts, index, now);
      case "Pos" => HandlePosition(parts, index);
      case "Move" => HandlePosition(parts, index);
      case "MapPos" => HandleMapPos(parts, index);
      case "Chat" => HandleChat(message, index);
      case "Disconnect" => HandleDisconnect(index);
      case _ =>
    }

    /** pruneInactiveClients with the clock reading `now`: walks the list from
        the back and evicts every client silent for more than the timeout. */
    method PruneInactiveClients(now: int)
      requires Valid()
      modifies this`clients, this`records, this`connectedClients, this`outbox, this`hooks
      ensures Valid()
      ensures State() == Prune(old(State()), now, controller)
    {
      if |clients| == 0 {
        return;
      }
      var i := |clients|;
      while i > 0
        invariant Valid() && 0 <= i <= |records|
        invariant SweepFrom(State(), i, now, controller) == Prune(old(State()), now, controller)
      {
        SweepOne(i - 1, now);
        i := i - 1;
      }
    }

    /** One step of the sweep: client k goes if it has been silent too long. */
    method SweepOne(k: int, now: int)
      requires Valid() && 0 <= k < |records|
      modifies this`clients, this`records, this`connectedClients, this`outbox, this`hooks
      ensures Valid() && k <= |records|
      ensures SweepFrom(State(), k, now, controller) == SweepFrom(old(State()), k + 1, now, controller)
    {
      var client := clients[k];
      if now - client.lastSeenMs > ClientTimeoutMs {
        Evict(k);
      }
    }

    /** One turn of the receive loop with a datagram: processMessage at `now`,
        then pruneInactiveClients at `later`, unless processMessage threw. */
    method ServeOne(text: string, from: Address, now: int, later: int) returns (crashed: bool)
      requires Valid()
      modifies this, clients
      ensures Valid()
      ensures (State(), crashed) == Serve(old(State()), text, from, now, later, ff, controller)
    {
      crashed := ProcessMessage(text, from, now);
      if !crashed {
        PruneInactiveClients(later);
      }
    }
  }
}
