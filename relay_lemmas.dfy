/**
 * Properties of the relay state machine in RelaySpec: who a broadcast
 * reaches, what each Connect outcome does, that the registry invariant
 * survives every handler and the sweep, which fields a position update may
 * touch, how chat text is normalised, and what the sweep keeps.
 */
module RelayLemmas {
  import opened JavaText
  import opened Wire
  import opened RelaySpec

  // ---------------------------------------------------------------------------
  // Broadcast

  /** Some listed client whose id is not exceptId has address a. */
  predicate Listens(cs: seq<ClientRecord>, exceptId: int, a: Address)
  {
    exists i :: 0 <= i < |cs| && cs[i].id != exceptId && cs[i].addr == a
  }

  /** A broadcast sends the given notice and nothing else, to exactly the
      addresses of the clients whose id differs from exceptId. */
  lemma {:induction false} FanoutExactly(cs: seq<ClientRecord>, n: Notice, exceptId: int)
    ensures forall d :: d in Fanout(cs, n, exceptId) <==> d.notice == n && Listens(cs, exceptId, d.to)
    decreases |cs|
  {
    if cs != [] {
      var init := cs[..|cs| - 1];
      var last := cs[|cs| - 1];
      FanoutExactly(init, n, exceptId);
      forall d ensures d in Fanout(cs, n, exceptId) <==> d.notice == n && Listens(cs, exceptId, d.to) {
        if d in Fanout(init, n, exceptId) {
          var i :| 0 <= i < |init| && init[i].id != exceptId && init[i].addr == d.to;
          assert cs[i] == init[i];
        }
        if d.notice == n && Listens(cs, exceptId, d.to) {
          var i :| 0 <= i < |cs| && cs[i].id != exceptId && cs[i].addr == d.to;
          if i < |cs| - 1 {
            assert init[i] == cs[i];
          }
        }
      }
    }
  }

  /** No two datagrams of f go to the same address. */
  predicate DistinctTargets(f: seq<Datagram>)
  {
    forall j, k :: 0 <= j < k < |f| ==> f[j].to != f[k].to
  }

  /** With distinct addresses, nobody receives the same broadcast twice. */
  lemma {:induction false} FanoutOnce(cs: seq<ClientRecord>, n: Notice, exceptId: int)
    requires forall i, j :: 0 <= i < j < |cs| ==> cs[i].addr != cs[j].addr
    ensures DistinctTargets(Fanout(cs, n, exceptId))
    decreases |cs|
  {
    if cs != [] {
      var init := cs[..|cs| - 1];
      var last := cs[|cs| - 1];
      FanoutOnce(init, n, exceptId);
      FanoutExactly(init, n, exceptId);
      var f0 := Fanout(init, n, exceptId);
      var f := Fanout(cs, n, exceptId);
      forall j, k | 0 <= j < k < |f| ensures f[j].to != f[k].to {
        if k >= |f0| {
          assert last.id != exceptId && f == f0 + [Datagram(n, last.addr)];
          assert f[j] == f0[j] && f0[j] in f0;
          var i :| 0 <= i < |init| && init[i].id != exceptId && init[i].addr == f[j].to;
          assert init[i] == cs[i];
          assert f[k].to == last.addr;
        } else {
          assert f[j] == f0[j] && f[k] == f0[k];
        }
      }
    }
  }

  /** A broadcast whose exceptId matches no client reaches every client, in list order. */
  lemma {:induction false} FanoutAll(cs: seq<ClientRecord>, n: Notice, exceptId: int)
    requires forall i :: 0 <= i < |cs| ==> cs[i].id != exceptId
    ensures var f := Fanout(cs, n, exceptId);
      |f| == |cs| && forall k :: 0 <= k < |cs| ==> f[k] == Datagram(n, cs[k].addr)
    decreases |cs|
  {
    if cs != [] {
      var init := cs[..|cs| - 1];
      FanoutAll(init, n, exceptId);
      forall k | 0 <= k < |init| ensures Fanout(cs, n, exceptId)[k] == Datagram(n, cs[k].addr) {
        assert init[k] == cs[k];
      }
    }
  }

  // ---------------------------------------------------------------------------
  // Connect

  /** A Connect from an address already registered only answers AlreadyConnected
      to the sender; the registry and the controller are untouched. */
  lemma ConnectFromRegistered(st: RelayState, from: Address, parts: seq<string>, now: int,
                              ff: FloatFormat, controller: bool)
    requires exists i :: 0 <= i < |st.clients| && st.clients[i].addr == from
    ensures var next := Connect(st, from, parts, FindIndex(st.clients, from), now, ff, controller);
      && next.clients == st.clients && next.connected == st.connected && next.hooks == st.hooks
      && next.outbox == st.outbox + [Datagram(AlreadyConnected, from)]
  {
  }

  /** A Connect from a new address while the relay is full only answers Full. */
  lemma ConnectWhenFull(st: RelayState, from: Address, parts: seq<string>, now: int,
                        ff: FloatFormat, controller: bool)
    requires forall i :: 0 <= i < |st.clients| ==> st.clients[i].addr != from
    requires st.connected >= MaxClients
    ensures var next := Connect(st, from, parts, FindIndex(st.clients, from), now, ff, controller);
      && next.clients == st.clients && next.connected == st.connected && next.hooks == st.hooks
      && next.outbox == st.outbox + [Datagram(Full, from)]
  {
  }

  /** The client a Connect creates: its position (and its map, given a fourth
      part) is taken from the message only when both coordinates parse; when x
      parses and y does not, lastX has already been set from x. */
  lemma NewClientSeeding(id: int, from: Address, parts: seq<string>, now: int, ff: FloatFormat)
    ensures var c := NewClient(id, from, parts, now, ff);
      && c.id == id && c.addr == from && c.lastSeenMs == now
      && (c.hasPos <==> |parts| >= 3 && ff.parse(parts[1]).Some? && ff.parse(parts[2]).Some?)
      && (c.hasPos ==> c.lastX == ff.parse(parts[1]).value && c.lastY == ff.parse(parts[2]).value)
      && (!c.hasPos ==> c.lastY == ZeroCoord && c.currentMap == None)
      && (!c.hasPos ==> c.lastX == (if |parts| >= 3 && ff.parse(parts[1]).Some?
                                    then ff.parse(parts[1]).value else ZeroCoord))
      && (c.currentMap.Some? <==> c.hasPos && |parts| >= 4)
      && (c.currentMap.Some? ==> c.currentMap.value == parts[3])
  {
  }

  /** The catch-up carries positions and maps only. */
  lemma {:induction false} CatchUpNotices(cs: seq<ClientRecord>, to: Address)
    ensures forall d :: d in CatchUp(cs, to) ==> d.to == to && (d.notice.PlayerPos? || d.notice.Move? || d.notice.MapPos?)
    decreases |cs|
  {
    if cs != [] {
      CatchUpNotices(cs[..|cs| - 1], to);
    }
  }

  /** The catch-up is complete: every client with a known position has its
      PlayerPos and Move, and its MapPos when it has a map, sent to the
      newcomer. */
  lemma {:induction false} CatchUpReaches(cs: seq<ClientRecord>, to: Address)
    ensures forall c :: c in cs && c.hasPos ==>
      && Datagram(PlayerPos(c.id, c.lastX, c.lastY), to) in CatchUp(cs, to)
      && Datagram(Move(c.id, c.lastX, c.lastY), to) in CatchUp(cs, to)
      && (c.currentMap.Some? ==> Datagram(MapPos(c.id, c.currentMap.value, c.lastX, c.lastY), to) in CatchUp(cs, to))
    decreases |cs|
  {
    if cs != [] {
      var init := cs[..|cs| - 1];
      CatchUpReaches(init, to);
      forall c | c in cs && c.hasPos
        ensures && Datagram(PlayerPos(c.id, c.lastX, c.lastY), to) in CatchUp(cs, to)
                && Datagram(Move(c.id, c.lastX, c.lastY), to) in CatchUp(cs, to)
                && (c.currentMap.Some? ==> Datagram(MapPos(c.id, c.currentMap.value, c.lastX, c.lastY), to) in CatchUp(cs, to))
      {
        if c !in init {
          assert c == cs[|cs| - 1];
        }
      }
    }
  }

  /** The announcement of a newcomer c is complete: every client with a
      different id hears PlayerJoined, then MapPos when c brought a map, and
      PlayerPos and Move when c brought a position. */
  lemma AnnounceReaches(cs: seq<ClientRecord>, c: ClientRecord)
    ensures forall o :: o in cs && o.id != c.id ==>
      && Datagram(PlayerJoined(c.id), o.addr) in Announce(cs, c)
      && (c.currentMap.Some? ==> Datagram(MapPos(c.id, c.currentMap.value, c.lastX, c.lastY), o.addr) in Announce(cs, c))
      && (c.hasPos ==> Datagram(PlayerPos(c.id, c.lastX, c.lastY), o.addr) in Announce(cs, c)
                       && Datagram(Move(c.id, c.lastX, c.lastY), o.addr) in Announce(cs, c))
  {
    FanoutExactly(cs, PlayerJoined(c.id), c.id);
    FanoutExactly(cs, PlayerPos(c.id, c.lastX, c.lastY), c.id);
    FanoutExactly(cs, Move(c.id, c.lastX, c.lastY), c.id);
    if c.currentMap.Some? {
      FanoutExactly(cs, MapPos(c.id, c.currentMap.value, c.lastX, c.lastY), c.id);
    }
    forall o | o in cs && o.id != c.id
      ensures && Datagram(PlayerJoined(c.id), o.addr) in Announce(cs, c)
              && (c.currentMap.Some? ==> Datagram(MapPos(c.id, c.currentMap.value, c.lastX, c.lastY), o.addr) in Announce(cs, c))
              && (c.hasPos ==> Datagram(PlayerPos(c.id, c.lastX, c.lastY), o.addr) in Announce(cs, c)
                               && Datagram(Move(c.id, c.lastX, c.lastY), o.addr) in Announce(cs, c))
    {
      var k :| 0 <= k < |cs| && cs[k] == o;
      assert Listens(cs, c.id, o.addr);
    }
  }

  /** Both halves of the welcome arrive: the newcomer gets the catch-up on
      every positioned client, and every other client with a different id
      hears about the newcomer. */
  lemma WelcomeReaches(cs: seq<ClientRecord>, c: ClientRecord, from: Address)
    ensures forall o :: o in cs && o.hasPos ==>
      && Datagram(PlayerPos(o.id, o.lastX, o.lastY), from) in Welcome(cs, c, from)
      && Datagram(Move(o.id, o.lastX, o.lastY), from) in Welcome(cs, c, from)
      && (o.currentMap.Some? ==> Datagram(MapPos(o.id, o.currentMap.value, o.lastX, o.lastY), from) in Welcome(cs, c, from))
    ensures forall o :: o in cs && o.id != c.id ==>
      && Datagram(PlayerJoined(c.id), o.addr) in Welcome(cs, c, from)
      && (c.currentMap.Some? ==> Datagram(MapPos(c.id, c.currentMap.value, c.lastX, c.lastY), o.addr) in Welcome(cs, c, from))
      && (c.hasPos ==> Datagram(PlayerPos(c.id, c.lastX, c.lastY), o.addr) in Welcome(cs, c, from)
                       && Datagram(Move(c.id, c.lastX, c.lastY), o.addr) in Welcome(cs, c, from))
  {
    CatchUpReaches(cs, from);
    AnnounceReaches(cs, c);
    var w := Welcome(cs, c, from);
    var head := [Datagram(Connected(c.id), from)];
    var tail := if c.id >= 2 then Fanout(cs, Start, -1) else [];
    assert w == head + Announce(cs, c) + CatchUp(cs, from) + tail;
    assert forall d :: d in Announce(cs, c) ==> d in w;
    assert forall d :: d in CatchUp(cs, from) ==> d in w;
  }

  /** An accepted Connect: one client is appended with id connectedClients + 1,
      everything it sends is appended to the outbox, and once two or more are
      connected the controller is told to start. */
  lemma ConnectAccepted(st: RelayState, from: Address, parts: seq<string>, now: int,
                        ff: FloatFormat, controller: bool)
    requires forall i :: 0 <= i < |st.clients| ==> st.clients[i].addr != from
    requires st.connected < MaxClients
    ensures var next := Connect(st, from, parts, FindIndex(st.clients, from), now, ff, controller);
      var id := st.connected + 1;
      && next.clients == st.clients + [NewClient(id, from, parts, now, ff)]
      && next.connected == id
      && next.outbox == st.outbox + Welcome(next.clients, NewClient(id, from, parts, now, ff), from)
      && next.hooks == st.hooks + (if id >= 2 && controller then [StartGame] else [])
  {
  }

  /** What an accepted Connect sends: Connected to the sender first, then
      PlayerJoined to every other client with a different id, and never to the
      sender. */
  lemma WelcomeSends(others: seq<ClientRecord>, c: ClientRecord, from: Address)
    requires c.addr == from
    requires forall i :: 0 <= i < |others| ==> others[i].addr != from
    ensures var w := Welcome(others + [c], c, from);
      && |w| > 0 && w[0] == Datagram(Connected(c.id), from)
      && (forall i :: 0 <= i < |others| && others[i].id != c.id ==>
            Datagram(PlayerJoined(c.id), others[i].addr) in w)
      && Datagram(PlayerJoined(c.id), from) !in w
  {
    var cs := others + [c];
    var joined := Fanout(cs, PlayerJoined(c.id), c.id);
    var rest := AnnounceMap(cs, c) + AnnouncePosition(cs, c) + CatchUp(cs, from);
    var start := if c.id >= 2 then Fanout(cs, Start, -1) else [];
    assert Welcome(cs, c, from) == [Datagram(Connected(c.id), from)] + joined + rest + start;
    JoinedReachesOthers(others, c, from);
    RestCarriesNoJoin(cs, c, from);
    if c.id >= 2 {
      FanoutExactly(cs, Start, -1);
    }
  }

  /** Once two or more are connected, an accepted Connect sends Start to
      everybody, the sender included. */
  lemma WelcomeStart(cs: seq<ClientRecord>, c: ClientRecord, from: Address)
    requires c.id >= 2
    ensures forall i :: 0 <= i < |cs| && cs[i].id != -1 ==> Datagram(Start, cs[i].addr) in Welcome(cs, c, from)
  {
    var start := Fanout(cs, Start, -1);
    assert Welcome(cs, c, from) == [Datagram(Connected(c.id), from)] + Announce(cs, c) + CatchUp(cs, from) + start;
    FanoutExactly(cs, Start, -1);
    forall i | 0 <= i < |cs| && cs[i].id != -1 ensures Datagram(Start, cs[i].addr) in start {
      assert Listens(cs, -1, cs[i].addr);
    }
  }

  /** The PlayerJoined broadcast of a Connect reaches the other clients with a
      different id, and not the newcomer. */
  lemma JoinedReachesOthers(others: seq<ClientRecord>, c: ClientRecord, from: Address)
    requires c.addr == from
    requires forall i :: 0 <= i < |others| ==> others[i].addr != from
    ensures var joined := Fanout(others + [c], PlayerJoined(c.id), c.id);
      && (forall i :: 0 <= i < |others| && others[i].id != c.id ==>
            Datagram(PlayerJoined(c.id), others[i].addr) in joined)
      && Datagram(PlayerJoined(c.id), from) !in joined
  {
    var cs := others + [c];
    FanoutExactly(cs, PlayerJoined(c.id), c.id);
    forall i | 0 <= i < |others| && others[i].id != c.id
      ensures Datagram(PlayerJoined(c.id), others[i].addr) in Fanout(cs, PlayerJoined(c.id), c.id)
    {
      assert cs[i] == others[i];
    }
    forall i | 0 <= i < |others| ensures cs[i].addr != from {
      assert cs[i] == others[i];
    }
  }

  /** Between PlayerJoined and Start, a Connect sends maps and positions only. */
  lemma RestCarriesNoJoin(cs: seq<ClientRecord>, c: ClientRecord, from: Address)
    ensures forall d :: d in AnnounceMap(cs, c) + AnnouncePosition(cs, c) + CatchUp(cs, from) ==>
      !d.notice.PlayerJoined? && !d.notice.Connected?
  {
    if c.currentMap.Some? {
      FanoutExactly(cs, MapPos(c.id, c.currentMap.value, c.lastX, c.lastY), c.id);
    }
    if c.hasPos {
      FanoutExactly(cs, PlayerPos(c.id, c.lastX, c.lastY), c.id);
      FanoutExactly(cs, Move(c.id, c.lastX, c.lastY), c.id);
    }
    CatchUpNotices(cs, from);
  }

  // ---------------------------------------------------------------------------
  // The registry invariant: connectedClients == clients.size() <= MaxClients,
  // addresses distinct, ids in 1..MaxClients.

  lemma ConnectKeepsInv(st: RelayState, from: Address, parts: seq<string>, now: int,
                        ff: FloatFormat, controller: bool)
    requires Inv(st.clients, st.connected)
    ensures var next := Connect(st, from, parts, FindIndex(st.clients, from), now, ff, controller);
      Inv(next.clients, next.connected)
  {
    var index := FindIndex(st.clients, from);
    if index == -1 && st.connected < MaxClients {
      var c := NewClient(st.connected + 1, from, parts, now, ff);
      var cs := st.clients + [c];
      forall i, j | 0 <= i < j < |cs| ensures cs[i].addr != cs[j].addr {
        assert cs[i] == st.clients[i];
        if j < |st.clients| {
          assert cs[j] == st.clients[j];
        }
      }
    }
  }

  lemma PositionKeepsInv(st: RelayState, parts: seq<string>, index: int, ff: FloatFormat)
    requires Inv(st.clients, st.connected)
    requires index == -1 || 0 <= index < |st.clients|
    ensures var next := Position(st, parts, index, ff);
      Inv(next.clients, next.connected)
  {
    if index != -1 {
      var c := st.clients[index];
      forall x, y ensures Inv(st.clients[index := c.(lastX := x, lastY := y, hasPos := true)], st.connected) {
        InvUpdate(st.clients, st.connected, index, c.(lastX := x, lastY := y, hasPos := true));
      }
    }
  }

  lemma MapPositionKeepsInv(st: RelayState, parts: seq<string>, index: int, ff: FloatFormat)
    requires Inv(st.clients, st.connected)
    requires index == -1 || 0 <= index < |st.clients|
    ensures var next := MapPosition(st, parts, index, ff);
      Inv(next.clients, next.connected)
  {
    if index != -1 {
      var c := st.clients[index];
      forall m, x, y ensures Inv(st.clients[index := c.(lastX := x, lastY := y, currentMap := Some(m), hasPos := true)], st.connected) {
        InvUpdate(st.clients, st.connected, index, c.(lastX := x, lastY := y, currentMap := Some(m), hasPos := true));
      }
    }
  }

  lemma EvictKeepsInv(st: RelayState, i: int, controller: bool)
    requires Inv(st.clients, st.connected) && 0 <= i < |st.clients|
    ensures var next := Evict(st, i, controller);
      Inv(next.clients, next.connected)
  {
    InvRemove(st.clients, st.connected, i);
  }

  lemma {:induction false} SweepKeepsInv(st: RelayState, i: nat, now: int, controller: bool)
    requires Inv(st.clients, st.connected) && i <= |st.clients|
    ensures var next := SweepFrom(st, i, now, controller);
      Inv(next.clients, next.connected)
    decreases i
  {
    if i > 0 {
      if Expired(st.clients[i - 1], now) {
        EvictKeepsInv(st, i - 1, controller);
        SweepKeepsInv(Evict(st, i - 1, controller), i - 1, now, controller);
      } else {
        SweepKeepsInv(st, i - 1, now, controller);
      }
    }
  }

  /** The sweep keeps the invariant. */
  lemma PruneKeepsInv(st: RelayState, now: int, controller: bool)
    requires Inv(st.clients, st.connected)
    ensures var next := Prune(st, now, controller);
      Inv(next.clients, next.connected)
  {
    if st.clients != [] {
      SweepKeepsInv(st, |st.clients|, now, controller);
    }
  }

  /** Every datagram, whatever it says, keeps the invariant. */
  lemma ProcessKeepsInv(st: RelayState, text: string, from: Address, now: int,
                        ff: FloatFormat, controller: bool)
    requires Inv(st.clients, st.connected)
    ensures var next := Process(st, text, from, now, ff, controller).0;
      Inv(next.clients, next.connected)
  {
    var message := Trim(text);
    if message != "" {
      var parts := Split(message);
      var index := FindIndex(st.clients, from);
      var touched := if index != -1 then Touch(st, index, now) else st;
      if index != -1 {
        InvUpdate(st.clients, st.connected, index, st.clients[index].(lastSeenMs := now));
      }
      assert FindIndex(touched.clients, from) == index by {
        if index != -1 {
          forall i | 0 <= i < |touched.clients| ensures touched.clients[i].addr == st.clients[i].addr {
          }
        }
      }
      if parts != [] {
        match parts[0]
        case "Connect" => ConnectKeepsInv(touched, from, parts, now, ff, controller);
        case "Pos" => PositionKeepsInv(touched, parts, index, ff);
        case "Move" => PositionKeepsInv(touched, parts, index, ff);
        case "MapPos" => MapPositionKeepsInv(touched, parts, index, ff);
        case "Chat" =>
        case "Disconnect" =>
          if index != -1 {
            EvictKeepsInv(touched, index, controller);
          }
        case _ =>
      }
    }
  }

  /** A turn of the receive loop keeps the invariant. */
  lemma ServeKeepsInv(st: RelayState, text: string, from: Address, now: int, later: int,
                      ff: FloatFormat, controller: bool)
    requires Inv(st.clients, st.connected)
    ensures var next := Serve(st, text, from, now, later, ff, controller).0;
      Inv(next.clients, next.connected)
  {
    ProcessKeepsInv(st, text, from, now, ff, controller);
    var (next, crashed) := Process(st, text, from, now, ff, controller);
    if !crashed {
      PruneKeepsInv(next, later, controller);
    }
  }

  /** The relay never holds more than MaxClients clients, whatever it receives. */
  lemma {:induction false} RunKeepsInv(st: RelayState, events: seq<Event>, ff: FloatFormat, controller: bool)
    requires Inv(st.clients, st.connected)
    ensures var last := Run(st, events, ff, controller);
      Inv(last.clients, last.connected) && last.connected <= MaxClients
    decreases |events|
  {
    if events != [] {
      match events[0]
      case TimedOut(now) =>
        PruneKeepsInv(st, now, controller);
        RunKeepsInv(Prune(st, now, controller), events[1..], ff, controller);
      case Received(text, from, now, later) =>
        ServeKeepsInv(st, text, from, now, later, ff, controller);
        var (next, crashed) := Serve(st, text, from, now, later, ff, controller);
        if !crashed {
          RunKeepsInv(next, events[1..], ff, controller);
        }
    }
  }

  // ---------------------------------------------------------------------------
  // Position updates

  /** A broadcast depends only on the ids and addresses of the clients. */
  lemma {:induction false} FanoutSameTargets(cs: seq<ClientRecord>, ds: seq<ClientRecord>, n: Notice, exceptId: int)
    requires |cs| == |ds|
    requires forall i :: 0 <= i < |cs| ==> cs[i].id == ds[i].id && cs[i].addr == ds[i].addr
    ensures Fanout(cs, n, exceptId) == Fanout(ds, n, exceptId)
    decreases |cs|
  {
    if cs != [] {
      FanoutSameTargets(cs[..|cs| - 1], ds[..|ds| - 1], n, exceptId);
    }
  }

  /** handlePosition reads the coordinates from parts[2] and parts[3] when the
      message has four or more parts and from parts[1] and parts[2] otherwise,
      and moves a registered sender when both parse; an unknown sender, fewer
      than three parts or a parse failure changes nothing and sends nothing. */
  lemma PositionOutcome(st: RelayState, parts: seq<string>, index: int, ff: FloatFormat)
    requires index == -1 || 0 <= index < |st.clients|
    ensures var next := Position(st, parts, index, ff);
      var s := if |parts| >= 4 then 2 else 1;
      if index != -1 && |parts| >= 3 && ff.parse(parts[s]).Some? && ff.parse(parts[s + 1]).Some? then
        && |next.clients| == |st.clients|
        && next.clients[index].lastX == ff.parse(parts[s]).value
        && next.clients[index].lastY == ff.parse(parts[s + 1]).value
        && next.clients[index].hasPos
      else next == st
  {
  }

  /** A position update changes the sender's lastX, lastY and hasPos and nothing
      else of the registry. */
  lemma PositionFrame(st: RelayState, parts: seq<string>, index: int, ff: FloatFormat)
    requires 0 <= index < |st.clients|
    ensures var next := Position(st, parts, index, ff);
      var c := st.clients[index];
      && |next.clients| == |st.clients| && next.connected == st.connected && next.hooks == st.hooks
      && (forall j :: 0 <= j < |st.clients| && j != index ==> next.clients[j] == st.clients[j])
      && next.clients[index].(lastX := c.lastX, lastY := c.lastY, hasPos := c.hasPos) == c
  {
  }

  /** A successful position update appends the PlayerPos broadcast and then the
      Move broadcast, both addressed by the registry as it was before. */
  lemma RelocateOutbox(st: RelayState, index: int, x: Coord, y: Coord)
    requires 0 <= index < |st.clients|
    ensures var next := Relocate(st, index, x, y);
      var id := st.clients[index].id;
      next.outbox == st.outbox + (Fanout(st.clients, PlayerPos(id, x, y), id) + Fanout(st.clients, Move(id, x, y), id))
  {
    var next := Relocate(st, index, x, y);
    var id := st.clients[index].id;
    FanoutSameTargets(next.clients, st.clients, PlayerPos(id, x, y), id);
    FanoutSameTargets(next.clients, st.clients, Move(id, x, y), id);
    SeqConcat(st.outbox, Fanout(st.clients, PlayerPos(id, x, y), id), Fanout(st.clients, Move(id, x, y), id));
  }

  /** The two broadcasts of a position update reach exactly the clients whose
      id differs from the sender's, with the sender's PlayerPos and Move. */
  lemma PosThenMoveReach(cs: seq<ClientRecord>, id: int, x: Coord, y: Coord)
    ensures forall d :: d in Fanout(cs, PlayerPos(id, x, y), id) + Fanout(cs, Move(id, x, y), id) <==>
      (d.notice == PlayerPos(id, x, y) || d.notice == Move(id, x, y)) && Listens(cs, id, d.to)
  {
    FanoutExactly(cs, PlayerPos(id, x, y), id);
    FanoutExactly(cs, Move(id, x, y), id);
  }

  /** Every PlayerPos of a position update goes out before any Move. */
  lemma PosThenMoveOrder(cs: seq<ClientRecord>, id: int, x: Coord, y: Coord)
    ensures var sent := Fanout(cs, PlayerPos(id, x, y), id) + Fanout(cs, Move(id, x, y), id);
      forall a, b :: 0 <= a < b < |sent| ==> !(sent[a].notice.Move? && sent[b].notice.PlayerPos?)
  {
    var f1 := Fanout(cs, PlayerPos(id, x, y), id);
    var f2 := Fanout(cs, Move(id, x, y), id);
    FanoutExactly(cs, PlayerPos(id, x, y), id);
    FanoutExactly(cs, Move(id, x, y), id);
    var sent := f1 + f2;
    forall k | 0 <= k < |sent| ensures sent[k].notice == if k < |f1| then PlayerPos(id, x, y) else Move(id, x, y) {
      if k < |f1| {
        assert sent[k] == f1[k];
      } else {
        assert sent[k] == f2[k - |f1|];
      }
    }
  }

  /** handleMapPos takes the map name and coordinates from parts[2..4] when the
      message has exactly five parts and from parts[1..3] otherwise, and moves a
      registered sender when both coordinates parse; an unknown sender, a
      missing part or a parse failure changes nothing and sends nothing. */
  lemma MapPositionOutcome(st: RelayState, parts: seq<string>, index: int, ff: FloatFormat)
    requires index == -1 || 0 <= index < |st.clients|
    ensures var next := MapPosition(st, parts, index, ff);
      var s := if |parts| == 5 then 2 else 1;
      if index != -1 && |parts| >= s + 3 && ff.parse(parts[s + 1]).Some? && ff.parse(parts[s + 2]).Some? then
        && |next.clients| == |st.clients|
        && next.clients[index].currentMap == Some(parts[s])
        && next.clients[index].lastX == ff.parse(parts[s + 1]).value
        && next.clients[index].lastY == ff.parse(parts[s + 2]).value
        && next.clients[index].hasPos
      else next == st
  {
  }

  /** A map update changes the sender's position, map and hasPos and nothing
      else of the registry. */
  lemma MapPositionFrame(st: RelayState, parts: seq<string>, index: int, ff: FloatFormat)
    requires 0 <= index < |st.clients|
    ensures var next := MapPosition(st, parts, index, ff);
      var c := st.clients[index];
      && |next.clients| == |st.clients| && next.connected == st.connected && next.hooks == st.hooks
      && (forall j :: 0 <= j < |st.clients| && j != index ==> next.clients[j] == st.clients[j])
      && next.clients[index].(lastX := c.lastX, lastY := c.lastY, currentMap := c.currentMap, hasPos := c.hasPos) == c
  {
  }

  /** A successful map update sends MapPos of the sender to exactly the clients
      whose id differs from the sender's. */
  lemma RemapSends(st: RelayState, index: int, mapName: string, x: Coord, y: Coord)
    requires 0 <= index < |st.clients|
    ensures var next := Remap(st, index, mapName, x, y);
      var id := st.clients[index].id;
      && |st.outbox| <= |next.outbox| && next.outbox[..|st.outbox|] == st.outbox
      && (forall d :: d in next.outbox[|st.outbox|..] <==>
            d.notice == MapPos(id, mapName, x, y) && Listens(st.clients, id, d.to))
  {
    var next := Remap(st, index, mapName, x, y);
    var id := st.clients[index].id;
    FanoutSameTargets(next.clients, st.clients, MapPos(id, mapName, x, y), id);
    FanoutExactly(st.clients, MapPos(id, mapName, x, y), id);
    assert next.outbox[|st.outbox|..] == Fanout(st.clients, MapPos(id, mapName, x, y), id);
  }

  // ---------------------------------------------------------------------------
  // Chat

  /** The tail of a chat message is everything after its first colon. */
  lemma ChatTailShape(raw: string)
    ensures var colon := IndexOfChar(raw, ':');
      && (colon == -1 <==> forall i :: 0 <= i < |raw| ==> raw[i] != ':')
      && (colon != -1 ==> raw[colon] == ':' && (forall i :: 0 <= i < colon ==> raw[i] != ':')
                          && ChatTail(raw) == raw[colon + 1..])
      && (colon == -1 ==> ChatTail(raw) == "")
  {
    IndexOfCharSpec(raw, ':');
  }

  /** Unbreak turns every line break into a space and keeps every other char,
      so it keeps the length, leaves no line break, and keeps every char blank
      or non-blank as it was. */
  lemma UnbreakShape(text: string)
    ensures var u := Unbreak(text);
      && |u| == |text|
      && (forall i :: 0 <= i < |u| ==>
            u[i] == (if text[i] == '\n' || text[i] == '\r' then ' ' else text[i]))
      && (forall i :: 0 <= i < |u| ==> u[i] != '\n' && u[i] != '\r')
      && (forall i :: 0 <= i < |u| ==> (IsTrimmable(u[i]) <==> IsTrimmable(text[i])))
  {
    var t1 := ReplaceChar(text, '\n', ' ');
    ReplaceCharSpec(text, '\n', ' ');
    ReplaceCharSpec(t1, '\r', ' ');
  }

  /** The chat text holds no line break and starts and ends with a non-blank. */
  lemma ChatBodyClean(raw: string)
    ensures var body := ChatBody(raw);
      && (forall i :: 0 <= i < |body| ==> body[i] != '\n' && body[i] != '\r')
      && (body == [] || (!IsTrimmable(body[0]) && !IsTrimmable(body[|body| - 1])))
  {
    var u := Unbreak(ChatTail(raw));
    UnbreakShape(ChatTail(raw));
    TrimShape(u);
    var body := ChatBody(raw);
    var a := |u| - |TrimStart(u)|;
    forall i | 0 <= i < |body| ensures body[i] != '\n' && body[i] != '\r' {
      assert body[i] == u[a + i];
    }
  }

  /** The chat text is empty exactly when nothing but blanks (line breaks
      included) follows the first colon, or there is no colon. */
  lemma ChatBodyEmpty(raw: string)
    ensures var colon := IndexOfChar(raw, ':');
      ChatBody(raw) == [] <==> colon == -1 || forall i :: colon < i < |raw| ==> IsTrimmable(raw[i])
  {
    var tail := ChatTail(raw);
    UnbreakShape(tail);
    TrimEmpty(Unbreak(tail));
    ChatTailBlank(raw);
  }

  lemma ChatTailBlank(raw: string)
    ensures var colon := IndexOfChar(raw, ':');
      (forall i :: 0 <= i < |ChatTail(raw)| ==> IsTrimmable(ChatTail(raw)[i]))
        <==> colon == -1 || forall i :: colon < i < |raw| ==> IsTrimmable(raw[i])
  {
    var colon := IndexOfChar(raw, ':');
    var tail := ChatTail(raw);
    if colon != -1 && colon + 1 < |raw| {
      forall i | colon < i < |raw| ensures raw[i] == tail[i - colon - 1] {
      }
    }
  }

  /** Truncation keeps at most MaxChatLength chars, from the start: a longer
      text is cut to exactly its first MaxChatLength chars. */
  lemma TruncateBound(text: string)
    ensures |Truncate(text)| <= MaxChatLength && Truncate(text) <= text
    ensures |text| <= MaxChatLength ==> Truncate(text) == text
    ensures |text| > MaxChatLength ==> Truncate(text) == text[..MaxChatLength]
  {
  }

  /** A non-empty chat text from a registered sender goes to every client, the
      sender included, in list order, tagged with the sender's id; an empty one
      sends nothing. The registry is untouched either way. */
  lemma ChatSends(st: RelayState, raw: string, index: int)
    requires Inv(st.clients, st.connected) && 0 <= index < |st.clients|
    ensures var next := ChatMessage(st, raw, index);
      var body := ChatBody(raw);
      var n := Chat(st.clients[index].id, Truncate(body));
      && next.clients == st.clients && next.connected == st.connected && next.hooks == st.hooks
      && (body == [] ==> next.outbox == st.outbox)
      && (body != [] ==>
            && |next.outbox| == |st.outbox| + |st.clients| && next.outbox[..|st.outbox|] == st.outbox
            && forall k :: 0 <= k < |st.clients| ==> next.outbox[|st.outbox| + k] == Datagram(n, st.clients[k].addr))
  {
    var body := ChatBody(raw);
    if body != [] {
      var n := Chat(st.clients[index].id, Truncate(body));
      FanoutAll(st.clients, n, -1);
    }
  }

  // ---------------------------------------------------------------------------
  // Removal and the sweep

  /** Removing client i (handleDisconnect or the sweep): the others keep their
      order, the counter drops by one, PlayerLeft goes once to exactly the
      remaining clients with a different id, and the menu comes back exactly
      when the last client goes and a controller is present. */
  lemma EvictSends(st: RelayState, i: int, controller: bool)
    requires Inv(st.clients, st.connected) && 0 <= i < |st.clients|
    ensures var next := Evict(st, i, controller);
      var gone := st.clients[i];
      && next.clients == st.clients[..i] + st.clients[i + 1..]
      && next.connected == st.connected - 1
      && |st.outbox| <= |next.outbox| && next.outbox[..|st.outbox|] == st.outbox
      && (forall d :: d in next.outbox[|st.outbox|..] <==>
            d.notice == PlayerLeft(gone.id) && Listens(next.clients, gone.id, d.to))
      && DistinctTargets(next.outbox[|st.outbox|..])
      && next.hooks == st.hooks + (if |st.clients| == 1 && controller then [BackToMenu] else [])
  {
    var next := Evict(st, i, controller);
    var gone := st.clients[i];
    InvRemove(st.clients, st.connected, i);
    FanoutExactly(next.clients, PlayerLeft(gone.id), gone.id);
    FanoutOnce(next.clients, PlayerLeft(gone.id), gone.id);
    assert next.outbox[|st.outbox|..] == Fanout(next.clients, PlayerLeft(gone.id), gone.id);
  }

  /** The clients the sweep keeps: the ones heard from within the timeout, in
      their original order. */
  function Survivors(cs: seq<ClientRecord>, now: int): seq<ClientRecord>
  {
    if cs == [] then []
    else (if Expired(cs[0], now) then [] else [cs[0]]) + Survivors(cs[1..], now)
  }

  lemma {:induction false} SurvivorsExactly(cs: seq<ClientRecord>, now: int)
    ensures forall c :: c in Survivors(cs, now) <==> c in cs && !Expired(c, now)
    ensures |Survivors(cs, now)| <= |cs|
    decreases |cs|
  {
    if cs != [] {
      SurvivorsExactly(cs[1..], now);
      assert forall c :: c in cs <==> c == cs[0] || c in cs[1..];
    }
  }

  lemma {:induction false} SurvivorsSnoc(cs: seq<ClientRecord>, c: ClientRecord, now: int)
    ensures Survivors(cs + [c], now) == Survivors(cs, now) + (if Expired(c, now) then [] else [c])
    decreases |cs|
  {
    var tail := if Expired(c, now) then [] else [c];
    if cs == [] {
      assert [c][1..] == [];
    } else {
      var head := if Expired(cs[0], now) then [] else [cs[0]];
      assert (cs + [c])[0] == cs[0];
      assert (cs + [c])[1..] == cs[1..] + [c];
      SurvivorsSnoc(cs[1..], c, now);
      assert Survivors(cs + [c], now) == head + (Survivors(cs[1..], now) + tail);
      SeqConcat(head, Survivors(cs[1..], now), tail);
    }
  }

  /** The sweep from index i down filters the prefix before i, leaves the rest
      untouched, and keeps the counter equal to the list's length. */
  lemma {:induction false} SweepFromClients(st: RelayState, i: nat, now: int, controller: bool)
    requires st.connected == |st.clients| && i <= |st.clients|
    ensures var next := SweepFrom(st, i, now, controller);
      && next.clients == Survivors(st.clients[..i], now) + st.clients[i..]
      && next.connected == |next.clients|
    decreases i
  {
    var cs := st.clients;
    if i == 0 {
      assert cs[..0] == [] && cs[0..] == cs;
    } else {
      var c := cs[i - 1];
      assert cs[..i] == cs[..i - 1] + [c];
      SurvivorsSnoc(cs[..i - 1], c, now);
      if Expired(c, now) {
        var ev := Evict(st, i - 1, controller);
        assert ev.clients == cs[..i - 1] + cs[i..];
        assert ev.clients[..i - 1] == cs[..i - 1];
        assert ev.clients[i - 1..] == cs[i..];
        SweepFromClients(ev, i - 1, now, controller);
        assert SweepFrom(st, i, now, controller) == SweepFrom(ev, i - 1, now, controller);
        assert Survivors(cs[..i], now) == Survivors(cs[..i - 1], now);
      } else {
        SweepFromClients(st, i - 1, now, controller);
        assert SweepFrom(st, i, now, controller) == SweepFrom(st, i - 1, now, controller);
        assert cs[i - 1..] == [c] + cs[i..];
        SeqConcat(Survivors(cs[..i - 1], now), [c], cs[i..]);
      }
    }
  }

  /** The sweep from index i down calls backToMenu exactly when it sweeps the
      whole list away and a controller is present. */
  lemma {:induction false} SweepFromHooks(st: RelayState, i: nat, now: int, controller: bool)
    requires st.connected == |st.clients| && i <= |st.clients|
    ensures SweepFrom(st, i, now, controller).hooks
      == st.hooks + (if controller && i == |st.clients| && i > 0 && Survivors(st.clients[..i], now) == []
                     then [BackToMenu] else [])
    decreases i
  {
    var cs := st.clients;
    if i > 0 {
      var c := cs[i - 1];
      assert cs[..i] == cs[..i - 1] + [c];
      SurvivorsSnoc(cs[..i - 1], c, now);
      if Expired(c, now) {
        var ev := Evict(st, i - 1, controller);
        assert ev.clients[..i - 1] == cs[..i - 1];
        SweepFromHooks(ev, i - 1, now, controller);
        assert SweepFrom(st, i, now, controller) == SweepFrom(ev, i - 1, now, controller);
      } else {
        SweepFromHooks(st, i - 1, now, controller);
        assert SweepFrom(st, i, now, controller) == SweepFrom(st, i - 1, now, controller);
      }
    }
  }

  /** pruneInactiveClients removes exactly the clients silent for more than
      ClientTimeoutMs, keeps the others in order, keeps the counter equal to the
      list's length, and calls backToMenu once when it empties the list. */
  lemma PruneShape(st: RelayState, now: int, controller: bool)
    requires Inv(st.clients, st.connected)
    ensures var next := Prune(st, now, controller);
      && next.clients == Survivors(st.clients, now)
      && next.connected == |next.clients|
      && next.hooks == st.hooks + (if controller && st.clients != [] && Survivors(st.clients, now) == []
                                   then [BackToMenu] else [])
  {
    if st.clients != [] {
      SweepFromClients(st, |st.clients|, now, controller);
      SweepFromHooks(st, |st.clients|, now, controller);
      assert st.clients[..|st.clients|] == st.clients;
    }
  }

  /** Notice n says that one of the first k clients, found expired, left. */
  predicate AnnouncesExpired(cs: seq<ClientRecord>, k: int, now: int, n: Notice)
    requires k <= |cs|
  {
    exists j :: 0 <= j < k && Expired(cs[j], now) && n == PlayerLeft(cs[j].id)
  }

  /** Everything a removal sends is the PlayerLeft of the removed client. */
  lemma EvictAnnounces(st: RelayState, i: int, controller: bool)
    requires 0 <= i < |st.clients|
    ensures var next := Evict(st, i, controller);
      && |st.outbox| <= |next.outbox| && next.outbox[..|st.outbox|] == st.outbox
      && forall k :: |st.outbox| <= k < |next.outbox| ==> next.outbox[k].notice == PlayerLeft(st.clients[i].id)
  {
    var next := Evict(st, i, controller);
    var f := Fanout(next.clients, PlayerLeft(st.clients[i].id), st.clients[i].id);
    FanoutExactly(next.clients, PlayerLeft(st.clients[i].id), st.clients[i].id);
    forall k | |st.outbox| <= k < |next.outbox| ensures next.outbox[k].notice == PlayerLeft(st.clients[i].id) {
      assert next.outbox[k] == f[k - |st.outbox|];
    }
  }

  /** Everything the sweep from index i down sends is a PlayerLeft for a
      client it found expired. */
  lemma {:induction false} SweepSends(st: RelayState, i: nat, now: int, controller: bool)
    requires i <= |st.clients|
    ensures var next := SweepFrom(st, i, now, controller);
      && |st.outbox| <= |next.outbox| && next.outbox[..|st.outbox|] == st.outbox
      && forall k :: |st.outbox| <= k < |next.outbox| ==> AnnouncesExpired(st.clients, i, now, next.outbox[k].notice)
    decreases i
  {
    if i > 0 {
      var cs := st.clients;
      if Expired(cs[i - 1], now) {
        var ev := Evict(st, i - 1, controller);
        EvictAnnounces(st, i - 1, controller);
        SweepSends(ev, i - 1, now, controller);
        var next := SweepFrom(ev, i - 1, now, controller);
        assert SweepFrom(st, i, now, controller) == next;
        forall k | |st.outbox| <= k < |next.outbox| ensures AnnouncesExpired(cs, i, now, next.outbox[k].notice) {
          if k < |ev.outbox| {
            assert next.outbox[k] == ev.outbox[k];
          } else {
            assert AnnouncesExpired(ev.clients, i - 1, now, next.outbox[k].notice);
            var j :| 0 <= j < i - 1 && Expired(ev.clients[j], now) && next.outbox[k].notice == PlayerLeft(ev.clients[j].id);
            assert ev.clients[j] == cs[j];
          }
        }
      } else {
        SweepSends(st, i - 1, now, controller);
        forall k | |st.outbox| <= k < |SweepFrom(st, i, now, controller).outbox|
          ensures AnnouncesExpired(cs, i, now, SweepFrom(st, i, now, controller).outbox[k].notice)
        {
        }
      }
    }
  }

  /** The sweep only removes clients: whatever it leaves was there before. */
  lemma SweepKeepsOnly(st: RelayState, i: nat, now: int, controller: bool)
    requires st.connected == |st.clients| && i <= |st.clients|
    ensures forall c :: c in SweepFrom(st, i, now, controller).clients ==> c in st.clients
  {
    SweepFromClients(st, i, now, controller);
    SurvivorsExactly(st.clients[..i], now);
    assert st.clients == st.clients[..i] + st.clients[i..];
  }

  /** A removal announces the removed client to every remaining client whose
      id differs. */
  lemma EvictReaches(st: RelayState, i: int, controller: bool)
    requires 0 <= i < |st.clients|
    ensures var ev := Evict(st, i, controller);
      var gone := st.clients[i];
      && |st.outbox| <= |ev.outbox|
      && forall c :: c in ev.clients && c.id != gone.id ==> Datagram(PlayerLeft(gone.id), c.addr) in ev.outbox[|st.outbox|..]
  {
    var ev := Evict(st, i, controller);
    var gone := st.clients[i];
    FanoutExactly(ev.clients, PlayerLeft(gone.id), gone.id);
    assert ev.outbox[|st.outbox|..] == Fanout(ev.clients, PlayerLeft(gone.id), gone.id);
    forall c | c in ev.clients && c.id != gone.id
      ensures Datagram(PlayerLeft(gone.id), c.addr) in ev.outbox[|st.outbox|..]
    {
      var k :| 0 <= k < |ev.clients| && ev.clients[k] == c;
      assert Listens(ev.clients, gone.id, c.addr);
    }
  }

  /** What sits past position n of an outbox still does once more is appended. */
  lemma InLongerOutbox(d: Datagram, a: seq<Datagram>, b: seq<Datagram>, n: nat)
    requires n <= |a| <= |b| && b[..|a|] == a && d in a[n..]
    ensures d in b[n..]
  {
    var m :| 0 <= m < |a[n..]| && a[n..][m] == d;
    assert b[n..][m] == d;
  }

  /** What sits past position m of an outbox also sits past any earlier n. */
  lemma InWiderSuffix(d: Datagram, b: seq<Datagram>, n: nat, m: nat)
    requires n <= m <= |b| && d in b[m..]
    ensures d in b[n..]
  {
    var k :| 0 <= k < |b[m..]| && b[m..][k] == d;
    assert b[n..][k + m - n] == d;
  }

  /** Every client the sweep from index i down finds expired is announced with
      PlayerLeft to every client left at the end whose id differs. */
  lemma {:induction false} SweepAnnounces(st: RelayState, i: nat, now: int, controller: bool)
    requires st.connected == |st.clients| && i <= |st.clients|
    ensures var next := SweepFrom(st, i, now, controller);
      && |st.outbox| <= |next.outbox|
      && forall j, c :: 0 <= j < i && Expired(st.clients[j], now) && c in next.clients && c.id != st.clients[j].id
           ==> Datagram(PlayerLeft(st.clients[j].id), c.addr) in next.outbox[|st.outbox|..]
    decreases i
  {
    SweepSends(st, i, now, controller);
    if i > 0 && Expired(st.clients[i - 1], now) {
      SweepAnnouncesEvicting(st, i, now, controller);
    } else if i > 0 {
      SweepAnnounces(st, i - 1, now, controller);
    }
  }

  /** The step of SweepAnnounces where client i - 1 has expired. */
  lemma {:induction false} SweepAnnouncesEvicting(st: RelayState, i: nat, now: int, controller: bool)
    requires st.connected == |st.clients| && 0 < i <= |st.clients| && Expired(st.clients[i - 1], now)
    ensures var next := SweepFrom(st, i, now, controller);
      && |st.outbox| <= |next.outbox|
      && forall j, c :: 0 <= j < i && Expired(st.clients[j], now) && c in next.clients && c.id != st.clients[j].id
           ==> Datagram(PlayerLeft(st.clients[j].id), c.addr) in next.outbox[|st.outbox|..]
    decreases i, 0
  {
    var cs := st.clients;
    var gone := cs[i - 1];
    var ev := Evict(st, i - 1, controller);
    var next := SweepFrom(ev, i - 1, now, controller);
    assert SweepFrom(st, i, now, controller) == next;
    SweepAnnounces(ev, i - 1, now, controller);
    SweepSends(ev, i - 1, now, controller);
    SweepKeepsOnly(ev, i - 1, now, controller);
    EvictReaches(st, i - 1, controller);
    forall j, c | 0 <= j < i && Expired(cs[j], now) && c in next.clients && c.id != cs[j].id
      ensures Datagram(PlayerLeft(cs[j].id), c.addr) in next.outbox[|st.outbox|..]
    {
      var d := Datagram(PlayerLeft(cs[j].id), c.addr);
      if j == i - 1 {
        InLongerOutbox(d, ev.outbox, next.outbox, |st.outbox|);
      } else {
        assert ev.clients[j] == cs[j];
        InWiderSuffix(d, next.outbox, |st.outbox|, |ev.outbox|);
      }
    }
  }

  /** Completeness of the prune's announcements: each client removed for
      silence is announced with PlayerLeft to every remaining client whose id
      differs. */
  lemma PruneAnnounces(st: RelayState, now: int, controller: bool)
    requires Inv(st.clients, st.connected)
    ensures var next := Prune(st, now, controller);
      && |st.outbox| <= |next.outbox|
      && (forall e, c :: e in st.clients && Expired(e, now) && c in Survivors(st.clients, now) && c.id != e.id
            ==> Datagram(PlayerLeft(e.id), c.addr) in next.outbox[|st.outbox|..])
  {
    if st.clients != [] {
      PruneShape(st, now, controller);
      SweepAnnounces(st, |st.clients|, now, controller);
      assert st.clients[..|st.clients|] == st.clients;
      forall e | e in st.clients && Expired(e, now)
        ensures exists j :: 0 <= j < |st.clients| && st.clients[j] == e
      {
      }
    }
  }

  // ---------------------------------------------------------------------------
  // Ids

  /** A word of letters only is left alone by trim and split. */
  lemma PlainWord(w: string)
    requires w != [] && forall i :: 0 <= i < |w| ==> 'A' <= w[i] <= 'Z' || 'a' <= w[i] <= 'z'
    ensures Trim(w) == w && Split(w) == [w]
  {
    TrimUnchanged(w);
  }

  /** A bare "Connect" from a new address, with room left, appends a client
      with the next id and no position. */
  lemma ProcessBareConnect(st: RelayState, a: Address, now: int, ff: FloatFormat, controller: bool)
    requires st.connected < MaxClients
    requires forall i :: 0 <= i < |st.clients| ==> st.clients[i].addr != a
    ensures var next := Process(st, "Connect", a, now, ff, controller).0;
      && next.clients == st.clients + [ClientRecord(st.connected + 1, a, ZeroCoord, ZeroCoord, None, false, now)]
      && next.connected == st.connected + 1
  {
    PlainWord("Connect");
    ConnectAccepted(st, a, ["Connect"], now, ff, controller);
  }

  /** A "Disconnect" from the first client removes it. */
  lemma ProcessFirstDisconnects(st: RelayState, a: Address, now: int, ff: FloatFormat, controller: bool)
    requires Inv(st.clients, st.connected) && st.clients != [] && st.clients[0].addr == a
    ensures var next := Process(st, "Disconnect", a, now, ff, controller).0;
      next.clients == st.clients[1..] && next.connected == st.connected - 1
  {
    PlainWord("Disconnect");
    assert FindIndex(st.clients, a) == 0;
  }

  /** Ids are reused: A and B connect (ids 1 and 2), A disconnects, C connects
      and is given id 2 again, the id B still holds. */
  lemma IdsCanCollide(ff: FloatFormat, a: Address, b: Address, c: Address, now: int)
    requires a != b && b != c && a != c
    ensures var s1 := Process(Empty, "Connect", a, now, ff, false).0;
      var s2 := Process(s1, "Connect", b, now, ff, false).0;
      var s3 := Process(s2, "Disconnect", a, now, ff, false).0;
      var s4 := Process(s3, "Connect", c, now, ff, false).0;
      && |s4.clients| == 2
      && s4.clients[0].addr == b && s4.clients[1].addr == c
      && s4.clients[0].id == 2 && s4.clients[1].id == 2
  {
    var s1 := Process(Empty, "Connect", a, now, ff, false).0;
    ProcessBareConnect(Empty, a, now, ff, false);
    assert s1.clients == [ClientRecord(1, a, ZeroCoord, ZeroCoord, None, false, now)] && s1.connected == 1;
    var s2 := Process(s1, "Connect", b, now, ff, false).0;
    ProcessBareConnect(s1, b, now, ff, false);
    var rb := ClientRecord(2, b, ZeroCoord, ZeroCoord, None, false, now);
    assert s2.clients == s1.clients + [rb] && s2.connected == 2;
    var s3 := Process(s2, "Disconnect", a, now, ff, false).0;
    ProcessFirstDisconnects(s2, a, now, ff, false);
    assert s3.clients == [rb] && s3.connected == 1;
    ProcessBareConnect(s3, c, now, ff, false);
  }
}
