# Kleine Gesellschaft lobby protocol

A model, in Dafny, of the UDP lobby protocol in the `utilidades.network`
package. The package has two ends.

- `ServerThread` is the **relay**. It keeps a list of `ClientInfo` records and
  a `connectedClients` counter with a capacity of 4. It handles the colon-separated
  commands `Connect`, `Pos`/`Move`, `MapPos`, `Chat` and `Disconnect`, and
  replies to or broadcasts to the registered clients. It evicts clients that
  have been silent for more than 7000 ms.
- `ClientThread` is the **peer**. It turns each inbound message into at most
  one `GameController` callback and updates `playerId`, `end` and the relay's
  address. It also builds the `Connect`, `Pos` and `Move` texts it sends.

The files:

- `java_text.dfy` (`JavaText`) holds the parts of `java.lang` the handlers rely on:
  `trim()`, `split(":")` (trailing empty strings dropped), `indexOf`,
  `replace`, `Integer.parseInt` and the decimal printing of ints. Each comes
  with the lemmas that pin down its behaviour.
- `wire.dfy` (`Wire`) holds the transport address, `getSocketKey()` and port 5555.
  Floats are kept as 32-bit patterns, read and printed by a caller-supplied
  `FloatFormat`.
- `relay_spec.dfy` (`RelaySpec`) is the relay as functions on a `RelayState`
  value: the clients, the counter, the datagrams sent (an outbox) and the
  controller calls made (hooks).
- `relay_lemmas.dfy` (`RelayLemmas`) holds what the relay guarantees. Its
  invariant is `connectedClients == clients.size() <= 4`, with distinct
  addresses and ids in 1..4. It also covers who receives each broadcast, the
  capacity and duplicate rejections, chat normalisation, the liveness sweep,
  and a scenario in which ids collide.
- `server_thread.dfy` (`Server`) holds the `ClientInfo` and `ServerThread`
  classes. Their handlers mutate the client objects and the list in place, and
  each method is proved to leave the state the matching `RelaySpec` function
  describes.
- `client_thread.dfy` (`Peer`) holds the `ClientThread` class with its
  `processMessage`, `sendMessage`, `sendConnect`, `sendPosition` and
  `terminate`, proved against the `Receive` function.
- `peer_lemmas.dfy` (`PeerLemmas`) holds what the peer guarantees: the callback
  each message produces, that `end` is one-way, at most one callback per
  datagram, and the receive loop.
- `protocol.dfy` (`Protocol`) puts the two ends together. The relay parses the
  peer's texts as intended. The peer understands every notice the relay
  sends, and the Connect handshake completes.

An exception that escapes `processMessage` on either end is modelled as a
`crashed` result, because it ends the receiving thread. Examples are
`parts[0]` on an all-colon datagram and a failed `parseInt` in the peer. The
clock is a parameter (`now`). The socket becomes an outbox or `sent` log. The
`GameController` becomes a log of calls.

Points of the code's behaviour that a reader might not expect, all of which the model keeps:

- Ids are `connectedClients + 1`. The counter is decremented on every removal,
  so ids are reused after a removal and can equal a live client's id
  (`IdsCanCollide`).
- `Start` is broadcast, and `start()` is called, on every accepted Connect while
  the count is at least 2, not only on the Connect that brings it to 2.
- The catch-up sent to a newcomer includes its own position, because it is
  already in the list.
- `MapPos` is parsed only from the split parts. The code makes no attempt to
  recover an id from the raw text.
- The peer has no `Chat` or `MapPos` handling, and a malformed
  `Connected`/`PlayerPos`/`PlayerLeft`/`EndGame`/`UpdateScore` throws instead
  of being dropped.
- A `Connect` whose x parses but whose y does not still leaves `lastX` set,
  because the assignment happens before the second parse. `hasPos` stays false.

## Model

| member | source | states |
|---|---|---|
| JavaText.Trim | Kleine-Gesselschaft-main/core/src/main/java/utilidades/network/ServerThread.java:79 | String.trim() on a datagram's text: cut the chars <= U+0020 from both ends; TrimShape and TrimEmpty characterise it |
| JavaText.Split | Kleine-Gesselschaft-main/core/src/main/java/utilidades/network/ServerThread.java:81 | String.split(":"): the pieces between colons with trailing empty pieces dropped; SplitShape characterises it and SplitJoin inverts it |
| JavaText.ParseInt | Kleine-Gesselschaft-main/core/src/main/java/utilidades/network/ClientThread.java:55 | Integer.parseInt: an optional sign and ASCII digits whose value fits in 32 bits, None (the NumberFormatException) otherwise; its ensures bound the value to the int range, and ParseIntText inverts IntText |
| JavaText.IntText | Kleine-Gesselschaft-main/core/src/main/java/utilidades/network/ServerThread.java:134 | the decimal text Java prints for an int: non-empty, colon-free and ending in a digit |
| JavaText.TrimShape | Kleine-Gesselschaft-main/core/src/main/java/utilidades/network/ServerThread.java:79 | String.trim() as applied to every datagram: the result is the input with a prefix and a suffix of chars <= U+0020 cut off, starts and ends with a non-blank, and loses no non-blank char |
| JavaText.TrimEmpty | Kleine-Gesselschaft-main/core/src/main/java/utilidades/network/ServerThread.java:79-80 | the trimmed message is empty exactly when every char is blank, the case processMessage returns early on |
| JavaText.SplitShape | Kleine-Gesselschaft-main/core/src/main/java/utilidades/network/ServerThread.java:81 | split(":") yields colon-free pieces that rejoin to the message up to the trailing colons it drops; no colon gives the message itself |
| JavaText.SplitJoin | Kleine-Gesselschaft-main/core/src/main/java/utilidades/network/ServerThread.java:81 | colon-free fields joined with colons split back into the same fields when the last is non-empty |
| JavaText.SplitColonsOnly | Kleine-Gesselschaft-main/core/src/main/java/utilidades/network/ServerThread.java:81-87 | a message of colons only splits into no pieces, so parts[0] throws |
| JavaText.SplitHead | Kleine-Gesselschaft-main/core/src/main/java/utilidades/network/ClientThread.java:43-48 | the tag before the first colon survives trim and split whatever follows it |
| JavaText.SplitTrimJoin | Kleine-Gesselschaft-main/core/src/main/java/utilidades/network/ClientThread.java:43-44 | a message built from unpadded colon-free fields reads back, after trim and split, as those fields |
| JavaText.IndexOfCharSpec | Kleine-Gesselschaft-main/core/src/main/java/utilidades/network/ServerThread.java:236 | indexOf(':') is the first colon's index, or -1 when there is none |
| JavaText.ReplaceCharSpec | Kleine-Gesselschaft-main/core/src/main/java/utilidades/network/ServerThread.java:240 | replace("\n", " ") changes exactly the matching chars |
| JavaText.ParseIntText | Kleine-Gesselschaft-main/core/src/main/java/utilidades/network/ServerThread.java:134 | Integer.parseInt reads back the decimal text Java prints for any int |
| JavaText.IntTextInjective | Kleine-Gesselschaft-main/core/src/main/java/utilidades/network/ServerThread.java:134 | different ids print differently |
| Wire.SocketKeyInjective | Kleine-Gesselschaft-main/core/src/main/java/utilidades/network/ServerThread.java:37-39 | getSocketKey() = ip + ":" + port identifies the address: equal keys mean equal ip and port |
| RelaySpec.FindIndex | Kleine-Gesselschaft-main/core/src/main/java/utilidades/network/ServerThread.java:250-258 | findClientIndex: the first index whose address matches the sender, or -1 exactly when none does |
| RelaySpec.NoticeText | Kleine-Gesselschaft-main/core/src/main/java/utilidades/network/ServerThread.java:134-160 | the wire text of every message the relay sends, tag first and fields joined by colons; Protocol.Understood shows the peer reads each one back |
| RelaySpec.Connect | Kleine-Gesselschaft-main/core/src/main/java/utilidades/network/ServerThread.java:109-169 | handleConnect on the relay state: AlreadyConnected, Full or admission with the welcome; ConnectFromRegistered, ConnectWhenFull and ConnectAccepted characterise it |
| RelaySpec.Position | Kleine-Gesselschaft-main/core/src/main/java/utilidades/network/ServerThread.java:187-203 | handlePosition: store the parsed coordinates and broadcast PlayerPos and Move, or change nothing; PositionOutcome and PositionFrame characterise it |
| RelaySpec.MapPosition | Kleine-Gesselschaft-main/core/src/main/java/utilidades/network/ServerThread.java:205-220 | handleMapPos: store map and coordinates and broadcast MapPos, or change nothing; MapPositionOutcome and MapPositionFrame characterise it |
| RelaySpec.ChatMessage | Kleine-Gesselschaft-main/core/src/main/java/utilidades/network/ServerThread.java:232-248 | handleChat: the cleaned, truncated text after the first colon to every client, or nothing; ChatSends characterises it |
| RelaySpec.Disconnect | Kleine-Gesselschaft-main/core/src/main/java/utilidades/network/ServerThread.java:222-230 | handleDisconnect: evict the sender if it is registered; EvictSends characterises the removal |
| RelaySpec.Prune | Kleine-Gesselschaft-main/core/src/main/java/utilidades/network/ServerThread.java:171-184 | pruneInactiveClients: the backward sweep evicting clients silent for more than 7000 ms; PruneShape and PruneAnnounces characterise it |
| RelaySpec.Process | Kleine-Gesselschaft-main/core/src/main/java/utilidades/network/ServerThread.java:78-107 | processMessage: trim, ignore an empty text, split, refresh the sender's clock, throw on an all-colon text, else dispatch on the tag; ProcessKeepsInv states what it preserves |
| RelaySpec.Run | Kleine-Gesselschaft-main/core/src/main/java/utilidades/network/ServerThread.java:61-75 | the relay's receive loop over datagrams and timeouts, ending at the first escaping exception; RunKeepsInv bounds the registry over any run |
| RelayLemmas.FanoutExactly | Kleine-Gesselschaft-main/core/src/main/java/utilidades/network/ServerThread.java:275-280 | broadcast(msg, exceptId) sends msg and nothing else, to exactly the clients whose id is not exceptId |
| RelayLemmas.FanoutOnce | Kleine-Gesselschaft-main/core/src/main/java/utilidades/network/ServerThread.java:275-280 | with distinct addresses no client gets one broadcast twice |
| RelayLemmas.FanoutAll | Kleine-Gesselschaft-main/core/src/main/java/utilidades/network/ServerThread.java:275-280 | a broadcast with an exceptId no client holds (-1) reaches every client, in list order |
| RelayLemmas.ConnectFromRegistered | Kleine-Gesselschaft-main/core/src/main/java/utilidades/network/ServerThread.java:109-113 | Connect from a registered address only sends AlreadyConnected to the sender; clients, counter and controller unchanged |
| RelayLemmas.ConnectWhenFull | Kleine-Gesselschaft-main/core/src/main/java/utilidades/network/ServerThread.java:115-118 | Connect while connectedClients >= 4 only sends Full to the sender; nothing else changes |
| RelayLemmas.NewClientSeeding | Kleine-Gesselschaft-main/core/src/main/java/utilidades/network/ServerThread.java:121-132 | the new client takes x/y from parts 1-2 only when both parse, the map from part 3 only then too; otherwise y, the map and hasPos keep their defaults, while lastX is already x when x parses and only y fails |
| RelayLemmas.ConnectAccepted | Kleine-Gesselschaft-main/core/src/main/java/utilidades/network/ServerThread.java:120-168 | an accepted Connect appends exactly one client with id connectedClients + 1, increments the counter, appends its datagrams, and calls start() when the count is >= 2 |
| RelayLemmas.WelcomeSends | Kleine-Gesselschaft-main/core/src/main/java/utilidades/network/ServerThread.java:134-137 | the first datagram is Connected:<id> to the sender; PlayerJoined:<id> reaches every other client with a different id and not the sender |
| RelayLemmas.WelcomeStart | Kleine-Gesselschaft-main/core/src/main/java/utilidades/network/ServerThread.java:163-164 | once the id is >= 2, every client, the newcomer included, is sent Start |
| RelayLemmas.JoinedReachesOthers | Kleine-Gesselschaft-main/core/src/main/java/utilidades/network/ServerThread.java:137 | the PlayerJoined broadcast reaches each earlier client whose id differs from the newcomer's |
| RelayLemmas.CatchUpNotices | Kleine-Gesselschaft-main/core/src/main/java/utilidades/network/ServerThread.java:149-160 | the catch-up sends only PlayerPos, Move and MapPos, all to the newcomer |
| RelayLemmas.RestCarriesNoJoin | Kleine-Gesselschaft-main/core/src/main/java/utilidades/network/ServerThread.java:138-160 | between PlayerJoined and Start a Connect sends only positions and maps |
| RelayLemmas.CatchUpReaches | Kleine-Gesselschaft-main/core/src/main/java/utilidades/network/ServerThread.java:148-160 | every client with a known position has its PlayerPos and Move, and its MapPos when it has a map, sent to the newcomer |
| RelayLemmas.AnnounceReaches | Kleine-Gesselschaft-main/core/src/main/java/utilidades/network/ServerThread.java:137-146 | every client whose id differs from the newcomer's hears PlayerJoined, MapPos when the newcomer brought a map, and PlayerPos and Move when it brought a position |
| RelayLemmas.WelcomeReaches | Kleine-Gesselschaft-main/core/src/main/java/utilidades/network/ServerThread.java:134-160 | an accepted Connect's welcome carries both the complete catch-up to the newcomer and the complete announcement to the others |
| RelayLemmas.ConnectKeepsInv | Kleine-Gesselschaft-main/core/src/main/java/utilidades/network/ServerThread.java:109-169 | Connect keeps connectedClients == clients.size() <= 4, distinct addresses and ids in 1..4 |
| RelayLemmas.PositionKeepsInv | Kleine-Gesselschaft-main/core/src/main/java/utilidades/network/ServerThread.java:187-203 | handlePosition keeps the invariant |
| RelayLemmas.MapPositionKeepsInv | Kleine-Gesselschaft-main/core/src/main/java/utilidades/network/ServerThread.java:205-220 | handleMapPos keeps the invariant |
| RelayLemmas.EvictKeepsInv | Kleine-Gesselschaft-main/core/src/main/java/utilidades/network/ServerThread.java:222-230 | a removal keeps the invariant |
| RelayLemmas.SweepKeepsInv | Kleine-Gesselschaft-main/core/src/main/java/utilidades/network/ServerThread.java:174-184 | every prefix of the backward sweep keeps the invariant |
| RelayLemmas.PruneKeepsInv | Kleine-Gesselschaft-main/core/src/main/java/utilidades/network/ServerThread.java:171-185 | pruneInactiveClients keeps the invariant |
| RelayLemmas.ProcessKeepsInv | Kleine-Gesselschaft-main/core/src/main/java/utilidades/network/ServerThread.java:78-107 | every datagram, well-formed or not, keeps the invariant |
| RelayLemmas.ServeKeepsInv | Kleine-Gesselschaft-main/core/src/main/java/utilidades/network/ServerThread.java:65-67 | a turn of the receive loop (processMessage then prune) keeps the invariant |
| RelayLemmas.RunKeepsInv | Kleine-Gesselschaft-main/core/src/main/java/utilidades/network/ServerThread.java:61-76 | over any sequence of datagrams and timeouts connectedClients never exceeds MAX_CLIENTS = 4 |
| RelayLemmas.FanoutSameTargets | Kleine-Gesselschaft-main/core/src/main/java/utilidades/network/ServerThread.java:199-200 | who a broadcast reaches depends only on the clients' ids and addresses, not on their positions |
| RelayLemmas.PositionOutcome | Kleine-Gesselschaft-main/core/src/main/java/utilidades/network/ServerThread.java:187-203 | a registered sender with >= 3 parts whose coordinates (parts 2-3 when >= 4 parts, else 1-2) parse is moved; an unregistered sender, too few parts or a parse failure changes nothing and sends nothing |
| RelayLemmas.PositionFrame | Kleine-Gesselschaft-main/core/src/main/java/utilidades/network/ServerThread.java:196-198 | a position update changes only the sender's lastX, lastY and hasPos |
| RelayLemmas.RelocateOutbox | Kleine-Gesselschaft-main/core/src/main/java/utilidades/network/ServerThread.java:199-200 | PlayerPos is broadcast, then Move, both excluding the sender's id |
| RelayLemmas.PosThenMoveReach | Kleine-Gesselschaft-main/core/src/main/java/utilidades/network/ServerThread.java:199-200 | the two broadcasts reach exactly the clients with an id different from the sender's |
| RelayLemmas.PosThenMoveOrder | Kleine-Gesselschaft-main/core/src/main/java/utilidades/network/ServerThread.java:199-200 | every PlayerPos of an update goes out before any Move |
| RelayLemmas.MapPositionOutcome | Kleine-Gesselschaft-main/core/src/main/java/utilidades/network/ServerThread.java:205-220 | MapPos reads map/x/y from offset 2 when there are exactly 5 parts, else offset 1; any missing part or parse failure changes nothing |
| RelayLemmas.MapPositionFrame | Kleine-Gesselschaft-main/core/src/main/java/utilidades/network/ServerThread.java:213-216 | a map update changes only the sender's position, map and hasPos |
| RelayLemmas.RemapSends | Kleine-Gesselschaft-main/core/src/main/java/utilidades/network/ServerThread.java:217 | MapPos of the sender reaches exactly the clients with a different id |
| RelayLemmas.ChatTailShape | Kleine-Gesselschaft-main/core/src/main/java/utilidades/network/ServerThread.java:235-239 | the chat text is everything after the first colon, or empty |
| RelayLemmas.UnbreakShape | Kleine-Gesselschaft-main/core/src/main/java/utilidades/network/ServerThread.java:240 | each \n and \r becomes a space and every other char is kept at its index |
| RelayLemmas.ChatBodyClean | Kleine-Gesselschaft-main/core/src/main/java/utilidades/network/ServerThread.java:240 | the normalised chat text has no line break and no leading or trailing blank |
| RelayLemmas.ChatBodyEmpty | Kleine-Gesselschaft-main/core/src/main/java/utilidades/network/ServerThread.java:236-241 | the chat text is empty exactly when there is no colon or only blanks follow it |
| RelayLemmas.TruncateBound | Kleine-Gesselschaft-main/core/src/main/java/utilidades/network/ServerThread.java:242-244 | a longer text is cut to exactly its first 120 chars, a shorter one is left alone |
| RelayLemmas.ChatSends | Kleine-Gesselschaft-main/core/src/main/java/utilidades/network/ServerThread.java:232-248 | a non-empty text goes to every client, the sender included, as Chat:<id>:<text>; an empty one sends nothing; the registry is untouched |
| RelayLemmas.EvictSends | Kleine-Gesselschaft-main/core/src/main/java/utilidades/network/ServerThread.java:222-230 | a removal keeps the others in order, decrements the counter, sends PlayerLeft once to exactly the remaining clients, and calls backToMenu exactly when the last client goes |
| RelayLemmas.SurvivorsExactly | Kleine-Gesselschaft-main/core/src/main/java/utilidades/network/ServerThread.java:176 | the clients kept are exactly those not silent for more than 7000 ms |
| RelayLemmas.SweepFromClients | Kleine-Gesselschaft-main/core/src/main/java/utilidades/network/ServerThread.java:174-184 | the backward sweep filters the clients it has passed, keeps the rest, and keeps the counter equal to the size |
| RelayLemmas.SweepFromHooks | Kleine-Gesselschaft-main/core/src/main/java/utilidades/network/ServerThread.java:180-182 | the sweep calls backToMenu exactly when it empties the list |
| RelayLemmas.PruneShape | Kleine-Gesselschaft-main/core/src/main/java/utilidades/network/ServerThread.java:171-185 | pruneInactiveClients removes exactly the expired clients, keeps the others in their original order and calls backToMenu once if it empties the list |
| RelayLemmas.EvictAnnounces | Kleine-Gesselschaft-main/core/src/main/java/utilidades/network/ServerThread.java:224-229 | a removal sends only PlayerLeft of the removed client |
| RelayLemmas.SweepSends | Kleine-Gesselschaft-main/core/src/main/java/utilidades/network/ServerThread.java:179 | everything the sweep sends is PlayerLeft of a client it found expired |
| RelayLemmas.EvictReaches | Kleine-Gesselschaft-main/core/src/main/java/utilidades/network/ServerThread.java:179 | one removal sends PlayerLeft of the removed id to every remaining client with a different id |
| RelayLemmas.SweepAnnounces | Kleine-Gesselschaft-main/core/src/main/java/utilidades/network/ServerThread.java:173-181 | every client the backward sweep finds expired is announced with PlayerLeft to every client still listed at the end whose id differs |
| RelayLemmas.PruneAnnounces | Kleine-Gesselschaft-main/core/src/main/java/utilidades/network/ServerThread.java:170-184 | pruneInactiveClients announces each expired client with PlayerLeft to every surviving client with a different id |
| RelayLemmas.ProcessBareConnect | Kleine-Gesselschaft-main/core/src/main/java/utilidades/network/ServerThread.java:120-133 | a bare Connect from a new address with room appends a client with the next id and no position |
| RelayLemmas.ProcessFirstDisconnects | Kleine-Gesselschaft-main/core/src/main/java/utilidades/network/ServerThread.java:222-226 | Disconnect from a registered address removes that client |
| RelayLemmas.IdsCanCollide | Kleine-Gesselschaft-main/core/src/main/java/utilidades/network/ServerThread.java:120-121 | ids come from the counter: after A, B connect and A leaves, a new C gets id 2, the id B still holds |
| Server.ClientInfo.constructor | Kleine-Gesselschaft-main/core/src/main/java/utilidades/network/ServerThread.java:30-35 | a new ClientInfo has the given id and address, zero coordinates, no map, no position and lastSeenMs = now |
| Server.ServerThread.constructor | Kleine-Gesselschaft-main/core/src/main/java/utilidades/network/ServerThread.java:47-52 | the relay starts with no clients and connectedClients = 0 |
| Server.ServerThread.SendMessage | Kleine-Gesselschaft-main/core/src/main/java/utilidades/network/ServerThread.java:260-273 | sendMessage appends one datagram to the outbox |
| Server.ServerThread.Broadcast | Kleine-Gesselschaft-main/core/src/main/java/utilidades/network/ServerThread.java:275-280 | the broadcast loop appends exactly the broadcast the spec function describes |
| Server.ServerThread.FindClientIndex | Kleine-Gesselschaft-main/core/src/main/java/utilidades/network/ServerThread.java:250-258 | the search loop returns the first index with the sender's address, or -1 |
| Server.ServerThread.HandleConnect | Kleine-Gesselschaft-main/core/src/main/java/utilidades/network/ServerThread.java:109-169 | handleConnect changes the relay's state exactly as the Connect function says |
| Server.ServerThread.Accept | Kleine-Gesselschaft-main/core/src/main/java/utilidades/network/ServerThread.java:120-168 | the success path: admit, then welcome |
| Server.ServerThread.Admit | Kleine-Gesselschaft-main/core/src/main/java/utilidades/network/ServerThread.java:120-133 | the counter is incremented and the seeded client appended |
| Server.ServerThread.SeedClient | Kleine-Gesselschaft-main/core/src/main/java/utilidades/network/ServerThread.java:121-132 | the new ClientInfo holds what NewClient describes |
| Server.ServerThread.SendWelcome | Kleine-Gesselschaft-main/core/src/main/java/utilidades/network/ServerThread.java:134-168 | the replies, announcements, catch-up and Start, in source order |
| Server.ServerThread.AnnounceNew | Kleine-Gesselschaft-main/core/src/main/java/utilidades/network/ServerThread.java:137-146 | PlayerJoined, then MapPos if a map was given, then PlayerPos and Move if a position was given |
| Server.ServerThread.SendCatchUp | Kleine-Gesselschaft-main/core/src/main/java/utilidades/network/ServerThread.java:149-160 | the catch-up loop sends each positioned client's PlayerPos, Move and MapPos to the newcomer |
| Server.ServerThread.HandlePosition | Kleine-Gesselschaft-main/core/src/main/java/utilidades/network/ServerThread.java:187-203 | handlePosition changes the state exactly as Position says |
| Server.ServerThread.MoveTo | Kleine-Gesselschaft-main/core/src/main/java/utilidades/network/ServerThread.java:196-200 | stores the position and sends the two broadcasts |
| Server.ServerThread.HandleMapPos | Kleine-Gesselschaft-main/core/src/main/java/utilidades/network/ServerThread.java:205-220 | handleMapPos changes the state exactly as MapPosition says |
| Server.ServerThread.MoveToMap | Kleine-Gesselschaft-main/core/src/main/java/utilidades/network/ServerThread.java:213-217 | stores position and map and sends MapPos |
| Server.ServerThread.HandleChat | Kleine-Gesselschaft-main/core/src/main/java/utilidades/network/ServerThread.java:232-248 | handleChat changes the state exactly as ChatMessage says |
| Server.ServerThread.Evict | Kleine-Gesselschaft-main/core/src/main/java/utilidades/network/ServerThread.java:224-229 | removal, guarded decrement, PlayerLeft and backToMenu |
| Server.ServerThread.HandleDisconnect | Kleine-Gesselschaft-main/core/src/main/java/utilidades/network/ServerThread.java:222-230 | handleDisconnect changes the state exactly as Disconnect says |
| Server.ServerThread.Touch | Kleine-Gesselschaft-main/core/src/main/java/utilidades/network/ServerThread.java:83-85 | refreshes the sender's lastSeenMs |
| Server.ServerThread.ProcessMessage | Kleine-Gesselschaft-main/core/src/main/java/utilidades/network/ServerThread.java:78-107 | processMessage: the new state, and whether an exception escaped, are those Process gives |
| Server.ServerThread.DispatchMessage | Kleine-Gesselschaft-main/core/src/main/java/utilidades/network/ServerThread.java:87-106 | the switch calls the handler of each known tag and ignores the rest |
| Server.ServerThread.PruneInactiveClients | Kleine-Gesselschaft-main/core/src/main/java/utilidades/network/ServerThread.java:171-185 | the backward removal loop leaves the state Prune describes |
| Server.ServerThread.SweepOne | Kleine-Gesselschaft-main/core/src/main/java/utilidades/network/ServerThread.java:175-183 | one loop turn evicts client k exactly when it has been silent more than 7000 ms |
| Server.ServerThread.ServeOne | Kleine-Gesselschaft-main/core/src/main/java/utilidades/network/ServerThread.java:65-67 | one turn of the receive loop: processMessage, then the sweep unless it threw |
| Peer.Dispatch | Kleine-Gesselschaft-main/core/src/main/java/utilidades/network/ClientThread.java:48-102 | the peer's switch on the tag: the state change and the GameController call of each case, and whether it throws; the PeerLemmas rows characterise it case by case |
| Peer.Receive | Kleine-Gesselschaft-main/core/src/main/java/utilidades/network/ClientThread.java:42-104 | processMessage: trim, split, throw on an all-colon text, else dispatch; AtMostOneCall and EndSticky state what it keeps |
| Peer.ConnectText | Kleine-Gesselschaft-main/core/src/main/java/utilidades/network/ClientThread.java:117-119 | the text of sendConnect(x, y); ConnectFields shows the relay reads it as [Connect, x, y] |
| Peer.PosText | Kleine-Gesselschaft-main/core/src/main/java/utilidades/network/ClientThread.java:121-126 | the first text of sendPosition(x, y); PosFields shows the relay reads it as [Pos, x, y] |
| Peer.MoveText | Kleine-Gesselschaft-main/core/src/main/java/utilidades/network/ClientThread.java:121-126 | the second text of sendPosition(x, y); MoveFields shows the relay reads it as [Move, x, y] |
| Peer.ClientThread.constructor | Kleine-Gesselschaft-main/core/src/main/java/utilidades/network/ClientThread.java:11-16 | a new peer has playerId -1, end false, the relay at 127.0.0.1 and no calls |
| Peer.ClientThread.ProcessMessage | Kleine-Gesselschaft-main/core/src/main/java/utilidades/network/ClientThread.java:42-105 | processMessage changes playerId, end, the relay address and the callbacks exactly as Receive says, including the exceptions |
| Peer.ClientThread.UpdatePosition | Kleine-Gesselschaft-main/core/src/main/java/utilidades/network/ClientThread.java:66-70 | updatePlayerPosition(parseInt(parts[1]), parseFloat(parts[2]), parseFloat(parts[3])), or an exception at the first bad part |
| Peer.ClientThread.SendMessage | Kleine-Gesselschaft-main/core/src/main/java/utilidades/network/ClientThread.java:107-115 | one datagram to the relay's address and port 5555; after terminate it throws and nothing is sent |
| Peer.ClientThread.SendConnect | Kleine-Gesselschaft-main/core/src/main/java/utilidades/network/ClientThread.java:117-119 | sendConnect sends exactly Connect:x:y |
| Peer.ClientThread.SendPosition | Kleine-Gesselschaft-main/core/src/main/java/utilidades/network/ClientThread.java:121-126 | sendPosition sends exactly Pos:x:y then Move:x:y, in that order |
| Peer.ClientThread.Terminate | Kleine-Gesselschaft-main/core/src/main/java/utilidades/network/ClientThread.java:132-136 | terminate sets end and closes the socket |
| PeerLemmas.ConnectedSetsId | Kleine-Gesselschaft-main/core/src/main/java/utilidades/network/ClientThread.java:52-57 | Connected:n records the relay's address, sets playerId to n and calls connect(n) exactly once; a missing or bad id throws with no call |
| PeerLemmas.FullEnds | Kleine-Gesselschaft-main/core/src/main/java/utilidades/network/ClientThread.java:58-61 | Full sets end and makes no callback |
| PeerLemmas.DispatchEnd | Kleine-Gesselschaft-main/core/src/main/java/utilidades/network/ClientThread.java:48-103 | no message clears end, and only Full sets it |
| PeerLemmas.EndSticky | Kleine-Gesselschaft-main/core/src/main/java/utilidades/network/ClientThread.java:58-61 | the same for whole datagrams: end never goes back to false |
| PeerLemmas.PlayerPosShort | Kleine-Gesselschaft-main/core/src/main/java/utilidades/network/ClientThread.java:65-71 | PlayerPos with fewer than four parts throws and changes nothing |
| PeerLemmas.PlayerPosCalls | Kleine-Gesselschaft-main/core/src/main/java/utilidades/network/ClientThread.java:65-71 | PlayerPos calls updatePlayerPosition(parts[1], parts[2], parts[3]) exactly when all three parse |
| PeerLemmas.MoveCases | Kleine-Gesselschaft-main/core/src/main/java/utilidades/network/ClientThread.java:72-84 | Move with >= 4 parts behaves as PlayerPos; with fewer it makes no callback and does not throw |
| PeerLemmas.PlayerJoinedPlaceholder | Kleine-Gesselschaft-main/core/src/main/java/utilidades/network/ClientThread.java:85-90 | PlayerJoined:n calls updatePlayerPosition(n, -1, -1); a bad or missing id is swallowed with no callback |
| PeerLemmas.SimpleMappings | Kleine-Gesselschaft-main/core/src/main/java/utilidades/network/ClientThread.java:62-102 | Start, PlayerLeft:n, EndGame:n, UpdateScore:s and Disconnect each make their one callback; a missing argument throws with none |
| PeerLemmas.Unrecognised | Kleine-Gesselschaft-main/core/src/main/java/utilidades/network/ClientThread.java:48-103 | any other tag, AlreadyConnected, Chat and MapPos among them, makes no callback and changes nothing |
| PeerLemmas.DispatchAtMostOne | Kleine-Gesselschaft-main/core/src/main/java/utilidades/network/ClientThread.java:48-103 | at most one callback per message, appended; only Connected moves playerId or the relay address; an exception makes no callback |
| PeerLemmas.AtMostOneCall | Kleine-Gesselschaft-main/core/src/main/java/utilidades/network/ClientThread.java:42-105 | the same for whole datagrams |
| PeerLemmas.AllColonsThrows | Kleine-Gesselschaft-main/core/src/main/java/utilidades/network/ClientThread.java:43-48 | a datagram of colons only throws at parts[0] and changes nothing |
| PeerLemmas.ListenGrows | Kleine-Gesselschaft-main/core/src/main/java/utilidades/network/ClientThread.java:30-40 | over any run of datagrams the callbacks only grow, by at most one each, and end stays set |
| PeerLemmas.ListenStopsWhenEnded | Kleine-Gesselschaft-main/core/src/main/java/utilidades/network/ClientThread.java:31-39 | the do-while loop stops after the datagram in hand once end is set |
| PeerLemmas.ConnectFields | Kleine-Gesselschaft-main/core/src/main/java/utilidades/network/ClientThread.java:117-119 | Connect:x:y reaches the relay as [Connect, x, y], and both coordinates read back |
| PeerLemmas.PosFields | Kleine-Gesselschaft-main/core/src/main/java/utilidades/network/ClientThread.java:124 | Pos:x:y reaches the relay as [Pos, x, y] |
| PeerLemmas.MoveFields | Kleine-Gesselschaft-main/core/src/main/java/utilidades/network/ClientThread.java:125 | Move:x:y reaches the relay as [Move, x, y] |
| Protocol.ConnectAdmits | Kleine-Gesselschaft-main/core/src/main/java/utilidades/network/ServerThread.java:120-133 | a peer's Connect:x:y from a new address with room is admitted with the next id at (x, y), hasPos set and no map |
| Protocol.PosMoves | Kleine-Gesselschaft-main/core/src/main/java/utilidades/network/ServerThread.java:187-200 | a registered peer's Pos:x:y moves it to (x, y) |
| Protocol.MoveMoves | Kleine-Gesselschaft-main/core/src/main/java/utilidades/network/ServerThread.java:91-93 | the Move:x:y that follows has the same effect |
| Protocol.HeardConnected | Kleine-Gesselschaft-main/core/src/main/java/utilidades/network/ClientThread.java:52-57 | the relay's Connected:<id> gives the peer that id |
| Protocol.HeardJoined | Kleine-Gesselschaft-main/core/src/main/java/utilidades/network/ClientThread.java:85-90 | the relay's PlayerJoined:<id> places that player at (-1, -1) |
| Protocol.HeardLeft | Kleine-Gesselschaft-main/core/src/main/java/utilidades/network/ClientThread.java:91-93 | the relay's PlayerLeft:<id> removes that player |
| Protocol.HeardPlace | Kleine-Gesselschaft-main/core/src/main/java/utilidades/network/ClientThread.java:65-84 | the relay's PlayerPos and Move notices place the player at the sent position |
| Protocol.HeardNothing | Kleine-Gesselschaft-main/core/src/main/java/utilidades/network/ClientThread.java:48-103 | the relay's MapPos and Chat notices are ignored by the peer |
| Protocol.Understood | Kleine-Gesselschaft-main/core/src/main/java/utilidades/network/ClientThread.java:42-105 | every notice the relay can build (ids in int range, coordinates that print) is read by the peer as the callback it stands for, without exception |
| Protocol.ConnectHandshake | Kleine-Gesselschaft-main/core/src/main/java/utilidades/network/ServerThread.java:134 | the relay's first reply to an admitted Connect, read by the peer, gives it its new id and makes its connect call |

## Left out

- Sockets, `DatagramPacket` buffers and the 1024-byte receive limit are not modelled. The byte-to-`String` decoding (`getBytes`, `new String`) is also out: a message is a `string` and a datagram is a (notice, address) pair.
- Threads, `volatile`, `interrupt()`, `setDaemon` and the socket timeout are not modelled: they concern concurrency. The relay's loop is modelled as a sequence of received datagrams and timeouts (`RelaySpec.Run`); the peer's as `PeerLemmas.Listen`.
- `ServerThread.terminate` and the relay's `end` flag are not modelled: they only stop the loop and close the socket.
- `System.currentTimeMillis()` is replaced by the parameters `now` and `later`.
- `Float.parseFloat` and float printing are caller-supplied functions (`FloatFormat`); no float arithmetic is done. `Protocol` assumes of a coordinate only `Wire.Prints`: it prints without colons or blanks and reads back.
- Java strings are UTF-16, while here a `char` is a Unicode scalar value, so no lone surrogate can be represented. Lengths and indices (`indexOf(':')`, `colon + 1 < length()`, the 120-char limit and `substring(0, 120)` in `handleChat`) agree with Java only for text within the Basic Multilingual Plane. Outside it, Java counts two units per char, so the limit cuts earlier and can split a surrogate pair; the model counts whole chars and keeps such a text whole. `trim()` strips chars <= U+0020. `Integer.parseInt` is modelled for ASCII digits only; Java also accepts other Unicode decimal digits.
- `System.out.println` logging is left out.
- The relay's `gameController` null check is the `controller` flag. The peer's `GameController` is assumed non-null. The peer's constructor swallowing a socket failure (leaving `socket` null) is not modelled.
- `sendMessage` failures on the relay are ignored in the source and always succeed here; on the peer, a send on a closed socket is the `failed` result.
- `getPlayerId()` is a plain getter and has no member of its own.
- Protocol.Understood: requires ids within Java's int range and coordinates that print safely (`Readable`); nothing else is assumed of the notices the relay builds.
