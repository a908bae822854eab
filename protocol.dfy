/**
 * The two ends together: the texts the peer sends are read by the relay as
 * the commands they stand for, and every notice the relay sends is read by the
 * peer as the call it stands for.
 */
module Protocol {
  import opened JavaText
  import opened Wire
  import R = RelaySpec
  import P = Peer
  import PL = PeerLemmas

  // ---------------------------------------------------------------------------
  // Peer to relay

  /** A Connect from an unknown address while there is room is admitted, and
      the new client sits at the coordinates the peer sent, with no map. */
  lemma ConnectAdmits(st: R.RelayState, from: Address, x: Coord, y: Coord, now: int,
                      ff: FloatFormat, controller: bool)
    requires R.FindIndex(st.clients, from) == -1 && st.connected < R.MaxClients
    requires Prints(ff, x) && Prints(ff, y)
    ensures var (next, crashed) := R.Process(st, P.ConnectText(ff, x, y), from, now, ff, controller);
      && !crashed
      && next == R.Admitted(st, from, ["Connect", ff.show(x), ff.show(y)], now, ff, controller)
      && next.clients[|next.clients| - 1] == R.ClientRecord(st.connected + 1, from, x, y, None, true, now)
  {
    PL.ConnectFields(ff, x, y);
  }

  /** Pos:x:y from a registered peer moves it to (x, y) and refreshes its
      last-seen time. */
  lemma PosMoves(st: R.RelayState, from: Address, i: int, x: Coord, y: Coord, now: int,
                 ff: FloatFormat, controller: bool)
    requires R.Inv(st.clients, st.connected) && 0 <= i < |st.clients| && st.clients[i].addr == from
    requires Prints(ff, x) && Prints(ff, y)
    ensures R.Process(st, P.PosText(ff, x, y), from, now, ff, controller)
         == (R.Relocate(R.Touch(st, i, now), i, x, y), false)
  {
    assert R.FindIndex(st.clients, from) == i;
    PL.PosFields(ff, x, y);
  }

  /** Move:x:y, sent right after it, has the same effect. */
  lemma MoveMoves(st: R.RelayState, from: Address, i: int, x: Coord, y: Coord, now: int,
                  ff: FloatFormat, controller: bool)
    requires R.Inv(st.clients, st.connected) && 0 <= i < |st.clients| && st.clients[i].addr == from
    requires Prints(ff, x) && Prints(ff, y)
    ensures R.Process(st, P.MoveText(ff, x, y), from, now, ff, controller)
         == (R.Relocate(R.Touch(st, i, now), i, x, y), false)
  {
    assert R.FindIndex(st.clients, from) == i;
    PL.MoveFields(ff, x, y);
  }

  // ---------------------------------------------------------------------------
  // Relay to peer

  /** A notice whose numbers survive the trip: ids within Java's int range and
      coordinates that print and read back. */
  predicate Readable(ff: FloatFormat, n: R.Notice)
  {
    match n
    case Connected(id) => MinInt <= id <= MaxInt
    case PlayerJoined(id) => MinInt <= id <= MaxInt
    case PlayerLeft(id) => MinInt <= id <= MaxInt
    case PlayerPos(id, x, y) => MinInt <= id <= MaxInt && Prints(ff, x) && Prints(ff, y)
    case Move(id, x, y) => MinInt <= id <= MaxInt && Prints(ff, x) && Prints(ff, y)
    case _ => true
  }

  /** What each notice is meant to make the peer do, received from `from`. */
  function Heard(st: P.PeerState, n: R.Notice, from: Address): P.PeerState
  {
    match n
    case AlreadyConnected => st
    case Full => st.(end := true)
    case Start => st.(calls := st.calls + [P.Start])
    case Connected(id) => st.(serverIp := from.ip, playerId := id, calls := st.calls + [P.Connect(id)])
    case PlayerJoined(id) => st.(calls := st.calls + [P.UpdatePlayerPosition(id, MinusOneCoord, MinusOneCoord)])
    case PlayerLeft(id) => st.(calls := st.calls + [P.PlayerLeft(id)])
    case PlayerPos(id, x, y) => st.(calls := st.calls + [P.UpdatePlayerPosition(id, x, y)])
    case Move(id, x, y) => st.(calls := st.calls + [P.UpdatePlayerPosition(id, x, y)])
    case MapPos(_, _, _, _) => st
    case Chat(_, _) => st
  }

  /** tag:id splits into the tag and the printed id. */
  lemma IdFields(tag: string, id: int)
    requires tag != [] && NoColon(tag) && !IsTrimmable(tag[0])
    ensures Split(Trim(tag + ":" + IntText(id))) == [tag, IntText(id)]
  {
    var parts := [tag, IntText(id)];
    assert Join(parts[1..]) == IntText(id);
    SplitTrimJoin(parts);
  }

  /** tag:id:x:y splits into the tag, the printed id and the two printed
      coordinates. */
  lemma PlaceFields(tag: string, id: int, ff: FloatFormat, x: Coord, y: Coord)
    requires tag != [] && NoColon(tag) && !IsTrimmable(tag[0])
    requires Prints(ff, x) && Prints(ff, y)
    ensures Split(Trim(tag + ":" + IntText(id) + ":" + ff.show(x) + ":" + ff.show(y)))
         == [tag, IntText(id), ff.show(x), ff.show(y)]
  {
    var parts := [tag, IntText(id), ff.show(x), ff.show(y)];
    assert Join(parts[3..]) == ff.show(y);
    assert Join(parts[2..]) == ff.show(x) + ":" + ff.show(y);
    assert Join(parts[1..]) == IntText(id) + ":" + ff.show(x) + ":" + ff.show(y);
    assert Join(parts) == tag + ":" + Join(parts[1..]);
    assert tag + ":" + IntText(id) + ":" + ff.show(x) + ":" + ff.show(y) == Join(parts);
    SplitTrimJoin(parts);
  }

  /** Connected:n gives the peer its id and the relay's address. */
  lemma HeardConnected(st: P.PeerState, id: int, from: Address, ff: FloatFormat)
    requires MinInt <= id <= MaxInt
    ensures P.Receive(st, "Connected:" + IntText(id), from, ff)
         == (st.(serverIp := from.ip, playerId := id, calls := st.calls + [P.Connect(id)]), false)
  {
    assert "Connected:" + IntText(id) == "Connected" + ":" + IntText(id);
    IdFields("Connected", id);
    ParseIntText(id);
  }

  /** PlayerJoined:n places the newcomer at the (-1, -1) placeholder. */
  lemma HeardJoined(st: P.PeerState, id: int, from: Address, ff: FloatFormat)
    requires MinInt <= id <= MaxInt
    ensures P.Receive(st, "PlayerJoined:" + IntText(id), from, ff)
         == (st.(calls := st.calls + [P.UpdatePlayerPosition(id, MinusOneCoord, MinusOneCoord)]), false)
  {
    assert "PlayerJoined:" + IntText(id) == "PlayerJoined" + ":" + IntText(id);
    IdFields("PlayerJoined", id);
    ParseIntText(id);
  }

  /** PlayerLeft:n removes that player. */
  lemma HeardLeft(st: P.PeerState, id: int, from: Address, ff: FloatFormat)
    requires MinInt <= id <= MaxInt
    ensures P.Receive(st, "PlayerLeft:" + IntText(id), from, ff)
         == (st.(calls := st.calls + [P.PlayerLeft(id)]), false)
  {
    assert "PlayerLeft:" + IntText(id) == "PlayerLeft" + ":" + IntText(id);
    IdFields("PlayerLeft", id);
    ParseIntText(id);
  }

  /** PlayerPos:n:x:y and Move:n:x:y place player n at (x, y). */
  lemma HeardPlace(st: P.PeerState, tag: string, id: int, x: Coord, y: Coord, from: Address, ff: FloatFormat)
    requires tag == "PlayerPos" || tag == "Move"
    requires MinInt <= id <= MaxInt && Prints(ff, x) && Prints(ff, y)
    ensures P.Receive(st, tag + ":" + IntText(id) + ":" + ff.show(x) + ":" + ff.show(y), from, ff)
         == (st.(calls := st.calls + [P.UpdatePlayerPosition(id, x, y)]), false)
  {
    PlaceFields(tag, id, ff, x, y);
    ParseIntText(id);
    var parts := [tag, IntText(id), ff.show(x), ff.show(y)];
    var pp := ["PlayerPos"] + parts[1..];
    PL.PlayerPosCalls(st, pp, from, ff);
    assert pp[1] == IntText(id) && pp[2] == ff.show(x) && pp[3] == ff.show(y);
    if tag == "Move" {
      PL.MoveCases(st, parts, from, ff);
    } else {
      assert pp == parts;
    }
  }

  /** A message whose tag the peer has no case for changes nothing. */
  lemma HeardNothing(st: P.PeerState, tag: string, rest: string, from: Address, ff: FloatFormat)
    requires tag == "MapPos" || tag == "Chat"
    ensures P.Receive(st, tag + ":" + rest, from, ff) == (st, false)
  {
    SplitHead(tag, rest);
    PL.Unrecognised(st, Split(Trim(tag + ":" + rest)), from, ff);
  }

  /** A notice with no fields reaches the peer's switch as its bare tag. */
  lemma HeardBare(st: P.PeerState, tag: string, from: Address, ff: FloatFormat)
    requires tag == "AlreadyConnected" || tag == "Full" || tag == "Start"
    ensures P.Receive(st, tag, from, ff) == P.Dispatch(st, [tag], from, ff)
  {
    TrimUnchanged(tag);
    assert NoColon(tag);
  }

  /** Understood, for the notices without fields. */
  lemma UnderstoodBare(st: P.PeerState, n: R.Notice, from: Address, ff: FloatFormat)
    requires n.AlreadyConnected? || n.Full? || n.Start?
    ensures P.Receive(st, R.NoticeText(ff, n), from, ff) == (Heard(st, n, from), false)
  {
    var tag := R.NoticeText(ff, n);
    HeardBare(st, tag, from, ff);
    if n.AlreadyConnected? {
      PL.RelayOnlyTags();
      PL.Unrecognised(st, [tag], from, ff);
    } else if n.Full? {
      PL.FullEnds(st, [tag], from, ff);
    } else {
      PL.SimpleMappings(st, [tag], from, ff);
    }
  }

  /** Understood, for the notices carrying one id. */
  lemma UnderstoodId(st: P.PeerState, n: R.Notice, from: Address, ff: FloatFormat)
    requires n.Connected? || n.PlayerJoined? || n.PlayerLeft?
    requires MinInt <= n.id <= MaxInt
    ensures P.Receive(st, R.NoticeText(ff, n), from, ff) == (Heard(st, n, from), false)
  {
    if n.Connected? {
      HeardConnected(st, n.id, from, ff);
    } else if n.PlayerJoined? {
      HeardJoined(st, n.id, from, ff);
    } else {
      HeardLeft(st, n.id, from, ff);
    }
  }

  /** Understood, for the notices carrying an id and a position. */
  lemma UnderstoodPlace(st: P.PeerState, n: R.Notice, from: Address, ff: FloatFormat)
    requires n.PlayerPos? || n.Move?
    requires MinInt <= n.id <= MaxInt && Prints(ff, n.x) && Prints(ff, n.y)
    ensures P.Receive(st, R.NoticeText(ff, n), from, ff) == (Heard(st, n, from), false)
  {
    var tag := if n.PlayerPos? then "PlayerPos" else "Move";
    assert R.NoticeText(ff, n) == tag + ":" + IntText(n.id) + ":" + ff.show(n.x) + ":" + ff.show(n.y);
    HeardPlace(st, tag, n.id, n.x, n.y, from, ff);
  }

  /** Understood, for the notices the peer has no case for. */
  lemma UnderstoodRelayOnly(st: P.PeerState, n: R.Notice, from: Address, ff: FloatFormat)
    requires n.MapPos? || n.Chat?
    ensures P.Receive(st, R.NoticeText(ff, n), from, ff) == (Heard(st, n, from), false)
  {
    if n.MapPos? {
      var rest := IntText(n.id) + ":" + n.mapName + ":" + ff.show(n.x) + ":" + ff.show(n.y);
      assert R.NoticeText(ff, n) == "MapPos" + ":" + rest;
      HeardNothing(st, "MapPos", rest, from, ff);
    } else {
      var rest := IntText(n.id) + ":" + n.text;
      assert R.NoticeText(ff, n) == "Chat" + ":" + rest;
      HeardNothing(st, "Chat", rest, from, ff);
    }
  }

  /** The peer understands every readable notice: it makes exactly the call
      the notice stands for and throws nothing; the relay-only MapPos and Chat
      notices are ignored. */
  lemma Understood(st: P.PeerState, n: R.Notice, from: Address, ff: FloatFormat)
    requires Readable(ff, n)
    ensures P.Receive(st, R.NoticeText(ff, n), from, ff) == (Heard(st, n, from), false)
  {
    if n.AlreadyConnected? || n.Full? || n.Start? {
      UnderstoodBare(st, n, from, ff);
    } else if n.Connected? || n.PlayerJoined? || n.PlayerLeft? {
      UnderstoodId(st, n, from, ff);
    } else if n.PlayerPos? || n.Move? {
      UnderstoodPlace(st, n, from, ff);
    } else {
      UnderstoodRelayOnly(st, n, from, ff);
    }
  }

  /** The handshake: a peer's Connect is admitted and the relay's first reply,
      once the peer reads it, gives the peer its new id and makes its connect
      call. */
  lemma ConnectHandshake(st: R.RelayState, from: Address, x: Coord, y: Coord, now: int,
                         ff: FloatFormat, controller: bool, peer: P.PeerState, relay: Address)
    requires R.Inv(st.clients, st.connected)
    requires R.FindIndex(st.clients, from) == -1 && st.connected < R.MaxClients
    requires Prints(ff, x) && Prints(ff, y)
    ensures var next := R.Process(st, P.ConnectText(ff, x, y), from, now, ff, controller).0;
      var id := st.connected + 1;
      && |next.outbox| > |st.outbox|
      && next.outbox[|st.outbox|] == R.Datagram(R.Connected(id), from)
      && P.Receive(peer, R.NoticeText(ff, R.Connected(id)), relay, ff)
         == (peer.(playerId := id, serverIp := relay.ip, calls := peer.calls + [P.Connect(id)]), false)
  {
    ConnectAdmits(st, from, x, y, now, ff, controller);
    var id := st.connected + 1;
    Understood(peer, R.Connected(id), relay, ff);
  }
}
