/**
 * The relay (ServerThread) as a pure state machine over value records: one
 * function per message handler, the liveness sweep, and the per-datagram
 * step. The imperative ServerThread class in module Server is proved to
 * change its state exactly as these functions say.
 */
module RelaySpec {
  import opened JavaText
  import opened Wire

  const MaxClients: int := 4
  const ClientTimeoutMs: int := 7000
  const MaxChatLength: int := 120

  /** The value of one ClientInfo object. */
  datatype ClientRecord = ClientRecord(
    id: int,
    addr: Address,
    lastX: Coord,
    lastY: Coord,
    currentMap: Option<string>,
    hasPos: bool,
    lastSeenMs: int)

  /** Calls the relay makes on its GameController. */
  datatype Hook = StartGame | BackToMenu

  /** Everything the relay's handlers read or change: the client list, the
      connectedClients counter, the datagrams sent so far and the controller
      calls made so far. */
  datatype RelayState = RelayState(
    clients: seq<ClientRecord>,
    connected: int,
    outbox: seq<Datagram>,
    hooks: seq<Hook>)

  /** The registry invariant every handler and the sweep preserve: the counter
      is the list's length and at most MaxClients, no two clients share an
      address, and every id is between 1 and MaxClients. */
  predicate Inv(clients: seq<ClientRecord>, connected: int)
  {
    && connected == |clients| <= MaxClients
    && (forall i, j :: 0 <= i < j < |clients| ==> clients[i].addr != clients[j].addr)
    && (forall i :: 0 <= i < |clients| ==> 1 <= clients[i].id <= MaxClients)
  }

  const Empty: RelayState := RelayState([], 0, [], [])

  /** Regrouping a concatenation. */
  lemma SeqConcat<T>(a: seq<T>, b: seq<T>, c: seq<T>)
    ensures a + b + c == a + (b + c)
  {
  }

  /** Changing a client's position, map or clock keeps the invariant. */
  lemma InvUpdate(cs: seq<ClientRecord>, n: int, i: int, c: ClientRecord)
    requires Inv(cs, n) && 0 <= i < |cs|
    requires c.id == cs[i].id && c.addr == cs[i].addr
    ensures Inv(cs[i := c], n)
  {
    var cs' := cs[i := c];
    forall j, k | 0 <= j < k < |cs'| ensures cs'[j].addr != cs'[k].addr {
      assert cs'[j].addr == cs[j].addr && cs'[k].addr == cs[k].addr;
    }
  }

  /** Removing a client and decrementing the counter keeps the invariant. */
  lemma InvRemove(cs: seq<ClientRecord>, n: int, i: int)
    requires Inv(cs, n) && 0 <= i < |cs|
    ensures Inv(cs[..i] + cs[i + 1..], n - 1)
  {
    var cs' := cs[..i] + cs[i + 1..];
    assert forall j :: 0 <= j < |cs'| ==> cs'[j] == cs[if j < i then j else j + 1];
  }

  // ---------------------------------------------------------------------------
  // What the relay sends

  /** Every message the relay sends, by its tag. */
  datatype Notice =
    | AlreadyConnected
    | Full
    | Start
    | Connected(id: int)
    | PlayerJoined(id: int)
    | PlayerLeft(id: int)
    | PlayerPos(id: int, x: Coord, y: Coord)
    | Move(id: int, x: Coord, y: Coord)
    | MapPos(id: int, mapName: string, x: Coord, y: Coord)
    | Chat(id: int, text: string)

  /** The text the relay builds for a notice: the tag, then the fields, joined
      by colons, ints and floats printed as Java prints them. */
  function NoticeText(ff: FloatFormat, n: Notice): string
  {
    match n
    case AlreadyConnected => "AlreadyConnected"
    case Full => "Full"
    case Start => "Start"
    case Connected(id) => "Connected:" + IntText(id)
    case PlayerJoined(id) => "PlayerJoined:" + IntText(id)
    case PlayerLeft(id) => "PlayerLeft:" + IntText(id)
    case PlayerPos(id, x, y) => "PlayerPos:" + IntText(id) + ":" + ff.show(x) + ":" + ff.show(y)
    case Move(id, x, y) => "Move:" + IntText(id) + ":" + ff.show(x) + ":" + ff.show(y)
    case MapPos(id, mapName, x, y) =>
      "MapPos:" + IntText(id) + ":" + mapName + ":" + ff.show(x) + ":" + ff.show(y)
    case Chat(id, text) => "Chat:" + IntText(id) + ":" + text
  }

  /** One datagram handed to the socket: what it says and where it goes. */
  datatype Datagram = Datagram(notice: Notice, to: Address)

  // ---------------------------------------------------------------------------
  // Lookup and fan-out

  /** findClientIndex: the first client whose socket key equals the sender's,
      or -1. Keys are compared in the source; since SocketKey is injective
      (Wire.SocketKeyInjective) that is the same as comparing addresses. */
  function FindIndex(clients: seq<ClientRecord>, from: Address): (r: int)
    ensures -1 <= r < |clients|
    ensures r == -1 <==> forall i :: 0 <= i < |clients| ==> clients[i].addr != from
    ensures r != -1 ==> clients[r].addr == from
    ensures r != -1 ==> forall i :: 0 <= i < r ==> clients[i].addr != from
  {
    if clients == [] then -1
    else if clients[0].addr == from then 0
    else
      var k := FindIndex(clients[1..], from);
      if k == -1 then -1 else k + 1
  }

  /** broadcast(text, exceptId): one datagram per listed client whose id is not
      exceptId, in list order. */
  function Fanout(clients: seq<ClientRecord>, n: Notice, exceptId: int): seq<Datagram>
  {
    if clients == [] then []
    else
      var last := clients[|clients| - 1];
      Fanout(clients[..|clients| - 1], n, exceptId)
        + (if last.id == exceptId then [] else [Datagram(n, last.addr)])
  }

  /** One more client, at most one more datagram at the end. */
  lemma FanoutStep(cs: seq<ClientRecord>, k: int, n: Notice, exceptId: int)
    requires 0 <= k < |cs|
    ensures Fanout(cs[..k + 1], n, exceptId)
         == Fanout(cs[..k], n, exceptId) + (if cs[k].id == exceptId then [] else [Datagram(n, cs[k].addr)])
  {
    assert cs[..k + 1][..k] == cs[..k];
  }

  /** The catch-up a new client gets: for every listed client with a known
      position, its PlayerPos and Move, then its MapPos when it has a map. */
  function CatchUp(clients: seq<ClientRecord>, to: Address): seq<Datagram>
  {
    if clients == [] then []
    else CatchUp(clients[..|clients| - 1], to) + CatchUpOne(clients[|clients| - 1], to)
  }

  /** One more client, one more catch-up piece at the end. */
  lemma CatchUpStep(cs: seq<ClientRecord>, k: int, to: Address)
    requires 0 <= k < |cs|
    ensures CatchUp(cs[..k + 1], to) == CatchUp(cs[..k], to) + CatchUpOne(cs[k], to)
  {
    assert cs[..k + 1][..k] == cs[..k];
  }

  function CatchUpOne(c: ClientRecord, to: Address): seq<Datagram>
  {
    if !c.hasPos then []
    else
      [Datagram(PlayerPos(c.id, c.lastX, c.lastY), to),
       Datagram(Move(c.id, c.lastX, c.lastY), to)]
      + (if c.currentMap.Some? then [Datagram(MapPos(c.id, c.currentMap.value, c.lastX, c.lastY), to)] else [])
  }

  // ---------------------------------------------------------------------------
  // Handlers

  /** The ClientInfo a Connect creates: fields at their Java defaults, then
      lastX from parts[1], lastY from parts[2] and the map from parts[3], each
      assignment happening only if the parses before it succeeded. */
  function NewClient(id: int, from: Address, parts: seq<string>, now: int, ff: FloatFormat): ClientRecord
  {
    var base := ClientRecord(id, from, ZeroCoord, ZeroCoord, None, false, now);
    if |parts| < 3 then base
    else match ff.parse(parts[1])
      case None => base
      case Some(x) =>
        match ff.parse(parts[2])
        case None => base.(lastX := x)
        case Some(y) =>
          base.(lastX := x, lastY := y, hasPos := true,
                currentMap := if |parts| >= 4 then Some(parts[3]) else None)
  }

  function Connect(st: RelayState, from: Address, parts: seq<string>, index: int,
                   now: int, ff: FloatFormat, controller: bool): RelayState
  {
    if index != -1 then
      st.(outbox := st.outbox + [Datagram(AlreadyConnected, from)])
    else if st.connected >= MaxClients then
      st.(outbox := st.outbox + [Datagram(Full, from)])
    else Admitted(st, from, parts, now, ff, controller)
  }

  /** The state after a Connect that is accepted: the new client is appended
      with id connectedClients + 1 and welcomed. */
  function Admitted(st: RelayState, from: Address, parts: seq<string>,
                    now: int, ff: FloatFormat, controller: bool): RelayState
  {
    var id := st.connected + 1;
    var c := NewClient(id, from, parts, now, ff);
    var cs := st.clients + [c];
    RelayState(cs, id, st.outbox + Welcome(cs, c, from),
               st.hooks + (if id >= 2 && controller then [StartGame] else []))
  }

  /** Admitted, field by field. */
  lemma AdmittedIs(st: RelayState, from: Address, parts: seq<string>, now: int,
                   ff: FloatFormat, controller: bool, c: ClientRecord, next: RelayState)
    requires c == NewClient(st.connected + 1, from, parts, now, ff)
    requires next.clients == st.clients + [c] && next.connected == st.connected + 1
    requires next.outbox == st.outbox + Welcome(next.clients, c, from)
    requires next.hooks == st.hooks + (if c.id >= 2 && controller then [StartGame] else [])
    ensures next == Admitted(st, from, parts, now, ff, controller)
  {
  }

  /** Everything a successful Connect sends, c being the new last client of cs:
      the reply, the announcement to the others, the catch-up for the
      newcomer, and Start to everyone once two or more are connected. */
  function Welcome(cs: seq<ClientRecord>, c: ClientRecord, from: Address): seq<Datagram>
  {
    [Datagram(Connected(c.id), from)]
    + Announce(cs, c)
    + CatchUp(cs, from)
    + (if c.id >= 2 then Fanout(cs, Start, -1) else [])
  }

  /** What the others hear about a new client c: PlayerJoined, then its map
      and its position when the Connect carried them. */
  function Announce(cs: seq<ClientRecord>, c: ClientRecord): seq<Datagram>
  {
    Fanout(cs, PlayerJoined(c.id), c.id) + AnnounceMap(cs, c) + AnnouncePosition(cs, c)
  }

  function AnnounceMap(cs: seq<ClientRecord>, c: ClientRecord): seq<Datagram>
  {
    if c.currentMap.Some? then Fanout(cs, MapPos(c.id, c.currentMap.value, c.lastX, c.lastY), c.id)
    else []
  }

  function AnnouncePosition(cs: seq<ClientRecord>, c: ClientRecord): seq<Datagram>
  {
    if c.hasPos then Fanout(cs, PlayerPos(c.id, c.lastX, c.lastY), c.id)
                     + Fanout(cs, Move(c.id, c.lastX, c.lastY), c.id)
    else []
  }

  /** Where a Pos/Move message carries its coordinates: after the id when it has
      four or more parts, right after the tag otherwise. */
  function PositionStart(parts: seq<string>): nat
  {
    if |parts| >= 4 then 2 else 1
  }

  /** handlePosition: a registered sender with at least three parts whose two
      coordinates parse moves to them; every other case changes nothing. */
  function Position(st: RelayState, parts: seq<string>, index: int, ff: FloatFormat): RelayState
    requires index == -1 || 0 <= index < |st.clients|
  {
    if index == -1 || |parts| < 3 then st
    else
      var start := PositionStart(parts);
      match (ff.parse(parts[start]), ff.parse(parts[start + 1]))
      case (Some(x), Some(y)) => Relocate(st, index, x, y)
      case _ => st
  }

  /** Client `index` is now at (x, y) with a known position; the others hear
      PlayerPos and then Move. */
  function Relocate(st: RelayState, index: int, x: Coord, y: Coord): RelayState
    requires 0 <= index < |st.clients|
  {
    var c := st.clients[index].(lastX := x, lastY := y, hasPos := true);
    var cs := st.clients[index := c];
    st.(clients := cs,
        outbox := st.outbox + Fanout(cs, PlayerPos(c.id, x, y), c.id)
                            + Fanout(cs, Move(c.id, x, y), c.id))
  }

  /** Where a MapPos message carries its map name: after the id when it has
      exactly five parts, right after the tag otherwise. */
  function MapPosStart(parts: seq<string>): nat
  {
    if |parts| == 5 then 2 else 1
  }

  /** handleMapPos: a registered sender whose map name is present and whose two
      coordinates parse moves there; every other case (a missing part
      included, which the source catches) changes nothing. */
  function MapPosition(st: RelayState, parts: seq<string>, index: int, ff: FloatFormat): RelayState
    requires index == -1 || 0 <= index < |st.clients|
  {
    var start := MapPosStart(parts);
    if index == -1 || |parts| < start + 3 then st
    else
      match (ff.parse(parts[start + 1]), ff.parse(parts[start + 2]))
      case (Some(x), Some(y)) => Remap(st, index, parts[start], x, y)
      case _ => st
  }

  /** Client `index` is now on map `mapName` at (x, y); the others hear MapPos. */
  function Remap(st: RelayState, index: int, mapName: string, x: Coord, y: Coord): RelayState
    requires 0 <= index < |st.clients|
  {
    var c := st.clients[index].(lastX := x, lastY := y, currentMap := Some(mapName), hasPos := true);
    var cs := st.clients[index := c];
    st.(clients := cs, outbox := st.outbox + Fanout(cs, MapPos(c.id, mapName, x, y), c.id))
  }

  /** What follows the first colon of a chat message; empty when there is no
      colon or nothing after it. */
  function ChatTail(raw: string): string
  {
    var colon := IndexOfChar(raw, ':');
    if colon != -1 && colon + 1 < |raw| then raw[colon + 1..] else ""
  }

  /** Line feeds, then carriage returns, replaced by spaces. */
  function Unbreak(text: string): string
  {
    ReplaceChar(ReplaceChar(text, '\n', ' '), '\r', ' ')
  }

  /** The chat text before truncation: the tail with line breaks made spaces,
      trimmed. */
  function ChatBody(raw: string): string
  {
    Trim(Unbreak(ChatTail(raw)))
  }

  function Truncate(text: string): string
  {
    if |text| > MaxChatLength then text[..MaxChatLength] else text
  }

  function ChatMessage(st: RelayState, raw: string, index: int): RelayState
    requires index == -1 || 0 <= index < |st.clients|
  {
    if index == -1 then st
    else
      var body := ChatBody(raw);
      if body == "" then st
      else st.(outbox := st.outbox + Fanout(st.clients, Chat(st.clients[index].id, Truncate(body)), -1))
  }

  /** Removing the client at index i: the counter drops (never below 0), the
      others hear PlayerLeft, and the controller goes back to the menu when the
      counter reaches 0. */
  function Evict(st: RelayState, i: int, controller: bool): RelayState
    requires 0 <= i < |st.clients|
  {
    var gone := st.clients[i];
    var cs := st.clients[..i] + st.clients[i + 1..];
    var n := if st.connected - 1 > 0 then st.connected - 1 else 0;
    RelayState(cs, n, st.outbox + Fanout(cs, PlayerLeft(gone.id), gone.id),
               st.hooks + (if n == 0 && controller then [BackToMenu] else []))
  }

  function Disconnect(st: RelayState, index: int, controller: bool): RelayState
    requires index == -1 || 0 <= index < |st.clients|
  {
    if index == -1 then st else Evict(st, index, controller)
  }

  // ---------------------------------------------------------------------------
  // Liveness sweep

  predicate Expired(c: ClientRecord, now: int)
  {
    now - c.lastSeenMs > ClientTimeoutMs
  }

  /** The sweep's loop from index i - 1 down to 0, evicting expired clients. */
  function SweepFrom(st: RelayState, i: nat, now: int, controller: bool): RelayState
    requires i <= |st.clients|
    decreases i
  {
    if i == 0 then st
    else
      var next := if Expired(st.clients[i - 1], now) then Evict(st, i - 1, controller) else st;
      SweepFrom(next, i - 1, now, controller)
  }

  /** pruneInactiveClients(now). */
  function Prune(st: RelayState, now: int, controller: bool): RelayState
  {
    if st.clients == [] then st else SweepFrom(st, |st.clients|, now, controller)
  }

  // ---------------------------------------------------------------------------
  // One inbound datagram

  function Touch(st: RelayState, index: int, now: int): RelayState
    requires 0 <= index < |st.clients|
  {
    st.(clients := st.clients[index := st.clients[index].(lastSeenMs := now)])
  }

  function Dispatch(st: RelayState, message: string, parts: seq<string>, from: Address,
                    index: int, now: int, ff: FloatFormat, controller: bool): RelayState
    requires parts != []
    requires index == -1 || 0 <= index < |st.clients|
  {
    match parts[0]
    case "Connect" => Connect(st, from, parts, index, now, ff, controller)
    case "Pos" => Position(st, parts, index, ff)
    case "Move" => Position(st, parts, index, ff)
    case "MapPos" => MapPosition(st, parts, index, ff)
    case "Chat" => ChatMessage(st, message, index)
    case "Disconnect" => Disconnect(st, index, controller)
    case _ => st
  }

  /** processMessage: the new state, and whether an exception escaped (an
      all-colon datagram splits into no parts and parts[0] throws). */
  function Process(st: RelayState, text: string, from: Address, now: int,
                   ff: FloatFormat, controller: bool): (RelayState, bool)
  {
    var message := Trim(text);
    if message == "" then (st, false)
    else
      var parts := Split(message);
      var index := FindIndex(st.clients, from);
      var touched := if index != -1 then Touch(st, index, now) else st;
      if parts == [] then (touched, true)
      else (Dispatch(touched, message, parts, from, index, now, ff, controller), false)
  }

  /** One turn of the relay's receive loop with a datagram: processMessage,
      then pruneInactiveClients at a later clock reading, unless an exception
      escaped processMessage (it ends the thread before the sweep). */
  function Serve(st: RelayState, text: string, from: Address, now: int, later: int,
                 ff: FloatFormat, controller: bool): (RelayState, bool)
  {
    var (next, crashed) := Process(st, text, from, now, ff, controller);
    if crashed then (next, true) else (Prune(next, later, controller), false)
  }

  /** What one turn of the receive loop sees: a datagram, with the clock read
      when it is handled and again when the sweep runs, or a receive timeout
      followed by a sweep. */
  datatype Event =
    | Received(text: string, from: Address, now: int, later: int)
    | TimedOut(now: int)

  /** The receive loop over a series of events; an exception escaping
      processMessage ends the thread, so later events have no effect. */
  function Run(st: RelayState, events: seq<Event>, ff: FloatFormat, controller: bool): RelayState
    decreases |events|
  {
    if events == [] then st
    else match events[0]
      case TimedOut(now) => Run(Prune(st, now, controller), events[1..], ff, controller)
      case Received(text, from, now, later) =>
        var (next, crashed) := Serve(st, text, from, now, later, ff, controller);
        if crashed then next else Run(next, events[1..], ff, controller)
  }
}
