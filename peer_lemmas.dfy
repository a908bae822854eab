/**
 * What the peer's message handling guarantees: which inbound messages set the
 * player id or the end flag, which GameController call each produces, that an
 * exception leaves the callbacks untouched, and what the outbound texts split
 * back into.
 */
module PeerLemmas {
  import opened JavaText
  import opened Wire
  import opened Peer

  /** The tags processMessage acts on; every other tag falls through the switch. */
  const Handled: set<string> :=
    {"Connected", "Full", "Start", "PlayerPos", "Move", "PlayerJoined",
     "PlayerLeft", "UpdateScore", "EndGame", "Disconnect"}

  // ---------------------------------------------------------------------------
  // Connected and Full

  /** Connected:n records the relay's address, sets playerId to n and calls
      connect(n) exactly once; a missing or malformed id throws after the
      address was recorded, with no call and playerId unchanged. */
  lemma ConnectedSetsId(st: PeerState, parts: seq<string>, from: Address, ff: FloatFormat)
    requires parts != [] && parts[0] == "Connected"
    ensures var (next, crashed) := Dispatch(st, parts, from, ff);
      && next.serverIp == from.ip && next.end == st.end
      && (crashed <==> |parts| < 2 || ParseInt(parts[1]).None?)
      && (!crashed ==> next.playerId == ParseInt(parts[1]).value
                       && next.calls == st.calls + [Connect(next.playerId)])
      && (crashed ==> next.playerId == st.playerId && next.calls == st.calls)
  {
  }

  /** Full ends the peer: only the end flag changes, and no call is made. */
  lemma FullEnds(st: PeerState, parts: seq<string>, from: Address, ff: FloatFormat)
    requires parts != [] && parts[0] == "Full"
    ensures Dispatch(st, parts, from, ff) == (st.(end := true), false)
  {
  }

  /** Nothing clears the end flag, and only Full sets it. */
  lemma DispatchEnd(st: PeerState, parts: seq<string>, from: Address, ff: FloatFormat)
    requires parts != []
    ensures Dispatch(st, parts, from, ff).0.end <==> st.end || parts[0] == "Full"
  {
    match parts[0]
    case "Full" =>
    case "PlayerPos" => PlayerPosCalls(st, parts, from, ff);
    case "Move" =>
      if |parts| >= 4 {
        MoveCases(st, parts, from, ff);
        PlayerPosCalls(st, ["PlayerPos"] + parts[1..], from, ff);
      }
    case _ =>
  }

  /** The same for a whole datagram. */
  lemma EndSticky(st: PeerState, text: string, from: Address, ff: FloatFormat)
    ensures var parts := Split(Trim(text));
      Receive(st, text, from, ff).0.end <==> st.end || (parts != [] && parts[0] == "Full")
  {
    var parts := Split(Trim(text));
    if parts != [] {
      DispatchEnd(st, parts, from, ff);
    }
  }

  // ---------------------------------------------------------------------------
  // Position messages

  /** PlayerPos needs an id and two coordinates: with fewer than four parts it
      throws and nothing changes. */
  lemma PlayerPosShort(st: PeerState, parts: seq<string>, from: Address, ff: FloatFormat)
    requires parts != [] && parts[0] == "PlayerPos" && |parts| < 4
    ensures Dispatch(st, parts, from, ff) == (st, true)
  {
  }

  /** PlayerPos:n:x:y with all three parts readable calls
      updatePlayerPosition(n, x, y) once; any unreadable part throws instead. */
  lemma PlayerPosCalls(st: PeerState, parts: seq<string>, from: Address, ff: FloatFormat)
    requires parts != [] && parts[0] == "PlayerPos"
    ensures var (next, crashed) := Dispatch(st, parts, from, ff);
      && next.playerId == st.playerId && next.end == st.end && next.serverIp == st.serverIp
      && (!crashed <==> |parts| >= 4 && ParseInt(parts[1]).Some?
                        && ff.parse(parts[2]).Some? && ff.parse(parts[3]).Some?)
      && (!crashed ==> next.calls == st.calls + [UpdatePlayerPosition(
                         ParseInt(parts[1]).value, ff.parse(parts[2]).value, ff.parse(parts[3]).value)])
      && (crashed ==> next.calls == st.calls)
  {
  }

  /** Move with four or more parts is handled like PlayerPos; shorter Move
      messages (the relay's echo form) are ignored without error. */
  lemma MoveCases(st: PeerState, parts: seq<string>, from: Address, ff: FloatFormat)
    requires parts != [] && parts[0] == "Move"
    ensures |parts| >= 4 ==> Dispatch(st, parts, from, ff) == Dispatch(st, ["PlayerPos"] + parts[1..], from, ff)
    ensures |parts| < 4 ==> Dispatch(st, parts, from, ff) == (st, false)
  {
    var pp := ["PlayerPos"] + parts[1..];
    assert pp[1..] == parts[1..];
    if |parts| >= 4 {
      assert IntPart(pp, 1) == IntPart(parts, 1);
      assert CoordPart(pp, 2, ff) == CoordPart(parts, 2, ff);
      assert CoordPart(pp, 3, ff) == CoordPart(parts, 3, ff);
    }
  }

  /** PlayerJoined:n calls updatePlayerPosition(n, -1, -1); a malformed or
      missing id is swallowed: no call and no exception. */
  lemma PlayerJoinedPlaceholder(st: PeerState, parts: seq<string>, from: Address, ff: FloatFormat)
    requires parts != [] && parts[0] == "PlayerJoined"
    ensures var (next, crashed) := Dispatch(st, parts, from, ff);
      && !crashed
      && (|parts| >= 2 && ParseInt(parts[1]).Some? ==>
            next == st.(calls := st.calls + [UpdatePlayerPosition(ParseInt(parts[1]).value, MinusOneCoord, MinusOneCoord)]))
      && (|parts| < 2 || ParseInt(parts[1]).None? ==> next == st)
  {
  }

  // ---------------------------------------------------------------------------
  // One-to-one mappings

  /** Start, PlayerLeft:n, EndGame:n, UpdateScore:s and Disconnect each make
      their one GameController call and change nothing else; a missing or
      malformed argument throws with no call. */
  lemma SimpleMappings(st: PeerState, parts: seq<string>, from: Address, ff: FloatFormat)
    requires parts != []
    ensures parts[0] == "Start" ==> Dispatch(st, parts, from, ff) == (st.(calls := st.calls + [Start]), false)
    ensures parts[0] == "Disconnect" ==> Dispatch(st, parts, from, ff) == (st.(calls := st.calls + [BackToMenu]), false)
    ensures parts[0] == "UpdateScore" ==>
      Dispatch(st, parts, from, ff) ==
      (if |parts| >= 2 then (st.(calls := st.calls + [UpdateScore(parts[1])]), false) else (st, true))
    ensures parts[0] == "PlayerLeft" ==>
      Dispatch(st, parts, from, ff) ==
      (if |parts| >= 2 && ParseInt(parts[1]).Some?
       then (st.(calls := st.calls + [PlayerLeft(ParseInt(parts[1]).value)]), false) else (st, true))
    ensures parts[0] == "EndGame" ==>
      Dispatch(st, parts, from, ff) ==
      (if |parts| >= 2 && ParseInt(parts[1]).Some?
       then (st.(calls := st.calls + [EndGame(ParseInt(parts[1]).value)]), false) else (st, true))
  {
  }

  /** Any tag the switch does not name, AlreadyConnected among them, is
      ignored: no call, no exception, no field changes. */
  lemma Unrecognised(st: PeerState, parts: seq<string>, from: Address, ff: FloatFormat)
    requires parts != [] && parts[0] !in Handled
    ensures Dispatch(st, parts, from, ff) == (st, false)
  {
  }

  /** The relay's AlreadyConnected, Chat and MapPos messages have no handler here. */
  lemma RelayOnlyTags()
    ensures "AlreadyConnected" !in Handled && "Chat" !in Handled && "MapPos" !in Handled
  {
  }

  // ---------------------------------------------------------------------------
  // Whole messages

  /** One dispatched message makes at most one GameController call, appended
      to those made before; only Connected moves playerId or the relay's
      address; an exception makes no call and leaves playerId and the end flag
      alone. */
  lemma DispatchAtMostOne(st: PeerState, parts: seq<string>, from: Address, ff: FloatFormat)
    requires parts != []
    ensures var (next, crashed) := Dispatch(st, parts, from, ff);
      && st.calls <= next.calls && |next.calls| <= |st.calls| + 1
      && (next.playerId != st.playerId || next.serverIp != st.serverIp ==> parts[0] == "Connected")
      && (crashed ==> next.calls == st.calls && next.playerId == st.playerId && next.end == st.end)
  {
    match parts[0]
    case "Connected" => ConnectedSetsId(st, parts, from, ff);
    case "PlayerPos" => PlayerPosCalls(st, parts, from, ff);
    case "Move" =>
      if |parts| >= 4 {
        MoveCases(st, parts, from, ff);
        PlayerPosCalls(st, ["PlayerPos"] + parts[1..], from, ff);
      }
    case _ =>
  }

  /** The same for a whole datagram, including one that splits into nothing. */
  lemma AtMostOneCall(st: PeerState, text: string, from: Address, ff: FloatFormat)
    ensures var (next, crashed) := Receive(st, text, from, ff);
      var parts := Split(Trim(text));
      && st.calls <= next.calls && |next.calls| <= |st.calls| + 1
      && (next.playerId != st.playerId || next.serverIp != st.serverIp ==> parts != [] && parts[0] == "Connected")
      && (crashed ==> next.calls == st.calls && next.playerId == st.playerId && next.end == st.end)
  {
    var parts := Split(Trim(text));
    if parts != [] {
      DispatchAtMostOne(st, parts, from, ff);
    }
  }

  /** A datagram of colons only (after trimming) splits into nothing, so
      reading its tag throws; nothing changes. */
  lemma AllColonsThrows(st: PeerState, text: string, from: Address, ff: FloatFormat)
    requires Trim(text) != [] && forall i :: 0 <= i < |Trim(text)| ==> Trim(text)[i] == ':'
    ensures Receive(st, text, from, ff) == (st, true)
  {
    SplitColonsOnly(Trim(text));
  }

  // ---------------------------------------------------------------------------
  // The receive loop

  /** run(): processes datagrams in order until one throws or, after handling
      one, the end flag is set (a do-while, so the first datagram is always
      handled). */
  function Listen(st: PeerState, inbox: seq<(string, Address)>, ff: FloatFormat): PeerState
    decreases |inbox|
  {
    if inbox == [] then st
    else
      var (next, crashed) := Receive(st, inbox[0].0, inbox[0].1, ff);
      if crashed || next.end then next else Listen(next, inbox[1..], ff)
  }

  /** Over any run of datagrams the calls only grow, by at most one per
      datagram, and an ended peer stays ended. */
  lemma {:induction false} ListenGrows(st: PeerState, inbox: seq<(string, Address)>, ff: FloatFormat)
    ensures var r := Listen(st, inbox, ff);
      && st.calls <= r.calls && |r.calls| <= |st.calls| + |inbox|
      && (st.end ==> r.end)
    decreases |inbox|
  {
    if inbox != [] {
      var (next, crashed) := Receive(st, inbox[0].0, inbox[0].1, ff);
      AtMostOneCall(st, inbox[0].0, inbox[0].1, ff);
      EndSticky(st, inbox[0].0, inbox[0].1, ff);
      if !(crashed || next.end) {
        ListenGrows(next, inbox[1..], ff);
      }
    }
  }

  /** Once the end flag is set the loop stops after the datagram in hand. */
  lemma ListenStopsWhenEnded(st: PeerState, inbox: seq<(string, Address)>, ff: FloatFormat)
    requires st.end && inbox != []
    ensures Listen(st, inbox, ff) == Receive(st, inbox[0].0, inbox[0].1, ff).0
  {
    EndSticky(st, inbox[0].0, inbox[0].1, ff);
  }

  // ---------------------------------------------------------------------------
  // Outbound texts

  /** Connect:x:y reaches the relay as the tag and the two printed
      coordinates, which read back as sent. */
  lemma ConnectFields(ff: FloatFormat, x: Coord, y: Coord)
    requires Prints(ff, x) && Prints(ff, y)
    ensures Split(Trim(ConnectText(ff, x, y))) == ["Connect", ff.show(x), ff.show(y)]
    ensures ff.parse(ff.show(x)) == Some(x) && ff.parse(ff.show(y)) == Some(y)
  {
    assert ConnectText(ff, x, y) == "Connect" + ":" + ff.show(x) + ":" + ff.show(y);
    TagFields("Connect", ff, x, y);
  }

  /** Pos:x:y, likewise. */
  lemma PosFields(ff: FloatFormat, x: Coord, y: Coord)
    requires Prints(ff, x) && Prints(ff, y)
    ensures Split(Trim(PosText(ff, x, y))) == ["Pos", ff.show(x), ff.show(y)]
  {
    assert PosText(ff, x, y) == "Pos" + ":" + ff.show(x) + ":" + ff.show(y);
    TagFields("Pos", ff, x, y);
  }

  /** Move:x:y, likewise. */
  lemma MoveFields(ff: FloatFormat, x: Coord, y: Coord)
    requires Prints(ff, x) && Prints(ff, y)
    ensures Split(Trim(MoveText(ff, x, y))) == ["Move", ff.show(x), ff.show(y)]
  {
    assert MoveText(ff, x, y) == "Move" + ":" + ff.show(x) + ":" + ff.show(y);
    TagFields("Move", ff, x, y);
  }

  /** tag:x:y with a colon-free, unpadded tag splits into its three pieces. */
  lemma TagFields(tag: string, ff: FloatFormat, x: Coord, y: Coord)
    requires tag != [] && NoColon(tag) && !IsTrimmable(tag[0])
    requires Prints(ff, x) && Prints(ff, y)
    ensures Split(Trim(tag + ":" + ff.show(x) + ":" + ff.show(y))) == [tag, ff.show(x), ff.show(y)]
  {
    var sx, sy := ff.show(x), ff.show(y);
    var parts := [tag, sx, sy];
    assert Join(parts[2..]) == sy;
    assert Join(parts[1..]) == sx + ":" + sy;
    assert Join(parts) == tag + ":" + sx + ":" + sy;
    SplitTrimJoin(parts);
  }
}
