/**
 * The peer end of the lobby protocol (ClientThread): how an inbound message
 * turns into at most one GameController call and updates playerId, end and the
 * relay's address, and the text of the messages the peer sends. The
 * GameController becomes the `calls` log and the socket the `sent` log.
 */
module Peer {
  import opened JavaText
  import opened Wire

  /** Calls the peer makes on its GameController. */
  datatype Call =
    | Connect(id: int)
    | Start
    | UpdatePlayerPosition(id: int, x: Coord, y: Coord)
    | PlayerLeft(id: int)
    | UpdateScore(score: string)
    | EndGame(id: int)
    | BackToMenu

  /** A datagram the peer sends: its text and where it goes. */
  datatype Packet = Packet(text: string, to: Address)

  /** What processMessage reads or changes: playerId, the end flag, the relay's
      IP as InetAddress.toString() prints it, and the calls made so far. */
  datatype PeerState = PeerState(playerId: int, end: bool, serverIp: string, calls: seq<Call>)

  /** The relay address a new peer starts with: 127.0.0.1. */
  const InitialServerIp: string := "/127.0.0.1"

  const Initial: PeerState := PeerState(-1, false, InitialServerIp, [])

  // ---------------------------------------------------------------------------
  // Inbound

  /** Integer.parseInt(parts[k]); None where the part is missing or does not
      parse, both of which throw. */
  function IntPart(parts: seq<string>, k: nat): Option<int>
  {
    if k < |parts| then ParseInt(parts[k]) else None
  }

  /** Float.parseFloat(parts[k]); None where the part is missing or does not parse. */
  function CoordPart(parts: seq<string>, k: nat, ff: FloatFormat): Option<Coord>
  {
    if k < |parts| then ff.parse(parts[k]) else None
  }

  /** updatePlayerPosition(parseInt(parts[1]), parseFloat(parts[2]),
      parseFloat(parts[3])), or None when any of the three throws. */
  function PositionCall(parts: seq<string>, ff: FloatFormat): Option<Call>
  {
    match (IntPart(parts, 1), CoordPart(parts, 2, ff), CoordPart(parts, 3, ff))
    case (Some(id), Some(x), Some(y)) => Some(UpdatePlayerPosition(id, x, y))
    case _ => None
  }

  /** Makes the call, or reports the exception that prevented it. */
  function Emit(st: PeerState, call: Option<Call>): (PeerState, bool)
  {
    match call
    case Some(c) => (st.(calls := st.calls + [c]), false)
    case None => (st, true)
  }

  /** The switch on parts[0] in processMessage, for a message from `from`: the
      new state and whether an exception escaped. */
  function Dispatch(st: PeerState, parts: seq<string>, from: Address, ff: FloatFormat): (PeerState, bool)
    requires parts != []
  {
    match parts[0]
    case "Connected" =>
      var moved := st.(serverIp := from.ip);
      (match IntPart(parts, 1)
       case Some(id) => (moved.(playerId := id, calls := st.calls + [Connect(id)]), false)
       case None => (moved, true))
    case "Full" => (st.(end := true), false)
    case "Start" => (st.(calls := st.calls + [Start]), false)
    case "PlayerPos" => Emit(st, PositionCall(parts, ff))
    case "Move" => if |parts| >= 4 then Emit(st, PositionCall(parts, ff)) else (st, false)
    case "PlayerJoined" =>
      (match IntPart(parts, 1)
       case Some(id) => (st.(calls := st.calls + [UpdatePlayerPosition(id, MinusOneCoord, MinusOneCoord)]), false)
       case None => (st, false))
    case "PlayerLeft" =>
      Emit(st, match IntPart(parts, 1) case Some(id) => Some(PlayerLeft(id)) case None => None)
    case "UpdateScore" => Emit(st, if |parts| >= 2 then Some(UpdateScore(parts[1])) else None)
    case "EndGame" =>
      Emit(st, match IntPart(parts, 1) case Some(id) => Some(EndGame(id)) case None => None)
    case "Disconnect" => (st.(calls := st.calls + [BackToMenu]), false)
    case _ => (st, false)
  }

  /** processMessage for the datagram text `text` from `from`: trim, split on
      colons, dispatch; an all-colon message has no parts[0] and throws. */
  function Receive(st: PeerState, text: string, from: Address, ff: FloatFormat): (PeerState, bool)
  {
    var parts := Split(Trim(text));
    if parts == [] then (st, true) else Dispatch(st, parts, from, ff)
  }

  // ---------------------------------------------------------------------------
  // Outbound

  /** sendConnect(x, y). */
  function ConnectText(ff: FloatFormat, x: Coord, y: Coord): string
  {
    "Connect:" + ff.show(x) + ":" + ff.show(y)
  }

  /** The first message of sendPosition(x, y). */
  function PosText(ff: FloatFormat, x: Coord, y: Coord): string
  {
    "Pos:" + ff.show(x) + ":" + ff.show(y)
  }

  /** The second message of sendPosition(x, y). */
  function MoveText(ff: FloatFormat, x: Coord, y: Coord): string
  {
    "Move:" + ff.show(x) + ":" + ff.show(y)
  }

  class ClientThread {
    var playerId: int
    var end: bool
    var serverIp: string
    /** Every GameController call made, oldest first. */
    var calls: seq<Call>
    /** Every datagram handed to the socket, oldest first. */
    var sent: seq<Packet>
    /** Whether terminate has closed the socket. */
    var closed: bool
    /** Float.parseFloat and Float.toString. */
    const ff: FloatFormat

    ghost function State(): PeerState
      reads this
    {
      PeerState(playerId, end, serverIp, calls)
    }

    constructor (ff: FloatFormat)
      ensures State() == Initial && sent == [] && !closed && this.ff == ff
    {
      playerId := -1;
      end := false;
      serverIp := InitialServerIp;
      calls := [];
      sent := [];
      closed := false;
      this.ff := ff;
    }

    /** The relay's address: the current server IP and the fixed port. */
    function Server(): Address
      reads this
    {
      Address(serverIp, ServerPort)
    }

    /** processMessage for the datagram text `text` from `from`; `crashed`
        reports an exception escaping it, which ends the receive thread. */
    method ProcessMessage(text: string, from: Address) returns (crashed: bool)
      modifies this`playerId, this`end, this`serverIp, this`calls
      ensures (State(), crashed) == Receive(old(State()), text, from, ff)
    {
      var message := Trim(text);
      var parts := Split(message);
      if parts == [] {
        return true;
      }
      crashed := false;
      match parts[0]
      case "AlreadyConnected" =>
      case "Connected" =>
        serverIp := from.ip;
        var id := IntPart(parts, 1);
        if id.None? {
          return true;
        }
        playerId := id.value;
        calls := calls + [Connect(playerId)];
      case "Full" =>
        end := true;
      case "Start" =>
        calls := calls + [Start];
      case "PlayerPos" =>
        crashed := UpdatePosition(parts);
      case "Move" =>
        if |parts| >= 4 {
          crashed := UpdatePosition(parts);
        }
      case "PlayerJoined" =>
        var id := IntPart(parts, 1);
        if id.Some? {
          calls := calls + [UpdatePlayerPosition(id.value, MinusOneCoord, MinusOneCoord)];
        }
      case "PlayerLeft" =>
        var id := IntPart(parts, 1);
        if id.None? {
          return true;
        }
        calls := calls + [PlayerLeft(id.value)];
      case "UpdateScore" =>
        if |parts| < 2 {
          return true;
        }
        calls := calls + [UpdateScore(parts[1])];
      case "EndGame" =>
        var id := IntPart(parts, 1);
        if id.None? {
          return true;
        }
        calls := calls + [EndGame(id.value)];
      case "Disconnect" =>
        calls := calls + [BackToMenu];
      case _ =>
    }

    /** updatePlayerPosition from parts[1..3], evaluated left to right. */
    method UpdatePosition(parts: seq<string>) returns (crashed: bool)
      modifies this`calls
      ensures (State(), crashed) == Emit(old(State()), PositionCall(parts, ff))
    {
      var id := IntPart(parts, 1);
      if id.None? {
        return true;
      }
      var x := CoordPart(parts, 2, ff);
      if x.None? {
        return true;
      }
      var y := CoordPart(parts, 3, ff);
      if y.None? {
        return true;
      }
      calls := calls + [UpdatePlayerPosition(id.value, x.value, y.value)];
      crashed := false;
    }

    /** sendMessage: one datagram to the relay; once the socket is closed the
        send throws and nothing goes out. */
    method SendMessage(text: string) returns (failed: bool)
      modifies this`sent
      ensures failed == closed
      ensures sent == old(sent) + (if closed then [] else [Packet(text, Server())])
    {
      if closed {
        return true;
      }
      sent := sent + [Packet(text, Server())];
      failed := false;
    }

    /** sendConnect(x, y). */
    method SendConnect(x: Coord, y: Coord) returns (failed: bool)
      modifies this`sent
      ensures failed == closed
      ensures sent == old(sent) + (if closed then [] else [Packet(ConnectText(ff, x, y), Server())])
    {
      failed := SendMessage("Connect:" + ff.show(x) + ":" + ff.show(y));
    }

    /** sendPosition(x, y): Pos, then Move; a failed first send stops the second. */
    method SendPosition(x: Coord, y: Coord) returns (failed: bool)
      modifies this`sent
      ensures failed == closed
      ensures sent == old(sent) + (if closed then [] else [Packet(PosText(ff, x, y), Server()),
                                                            Packet(MoveText(ff, x, y), Server())])
    {
      failed := SendMessage("Pos:" + ff.show(x) + ":" + ff.show(y));
      if failed {
        return;
      }
      failed := SendMessage("Move:" + ff.show(x) + ":" + ff.show(y));
    }

    /** terminate: the end flag is set and the socket closed. */
    method Terminate()
      modifies this`end, this`closed
      ensures end && closed
    {
      end := true;
      closed := true;
    }
  }
}
