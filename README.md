# Domain game: a Dafny model of the session channel, the room view and the game server

The domain game is a multiplayer party game: players join a room with a
nickname, a round lasts 60 seconds, and players race to type popular domain
names. The server keeps the rank table of the top domains, validates each
submission, awards points for its rank, refuses domains already entered in
the room, and announces the winner when the time is up. The browser client
holds one websocket channel, folds every server frame into the state it
displays, and sends two commands: start the game and submit a domain.

This project models both sides of that protocol and proves what each step
promises.

Client (TypeScript):

- `Session` (`frontend/src/utils/websocket.ts`): the channel as a class with a
  nullable transport handle and an ordered handler list. The transport is a
  `Socket` object with a ready state, the frames written to it and the state
  of the promise its `connect` returned. The events open, error, close and
  message are methods. Handlers are identified by a number that stands for
  function identity.
- `RoomView` (`frontend/src/components/GameRoom.tsx`): the message handler as
  a pure fold over `(gameState, error, winner)`, with the user intents and the
  mount effect as methods of a `GameRoom` class.
- `DomainListing` (`frontend/src/components/DomainList.tsx`): the colour lookup
  through `player_id.split("_")[1]` and the in-order list of rows.
- `Lobby` (`frontend/src/app/page.tsx`): the join and create checks, room-code
  upper-casing and exit.
- `ClientTypes` (`frontend/src/types/game.ts`): the frame types.

Server (Python):

- `ServerModels` (`backend/app/models.py`): the records. A room's `players`
  dict is a sequence in insertion order whose entries carry their distinct key.
- `GameRules` (`backend/app/game_logic.py`): the rank table built from the
  file's lines, domain validation, the score guards, the end-of-game test,
  winner selection and the update frame.
- `ConnectionRegistry` (`backend/app/websocket_manager.py`): the registry
  class with the live connection ids and the room map.
- `ServerLoop` (`backend/app/main.py`): one frame of the receive loop. It is a
  pure `Step` function that states what the frame does to the room, with
  lemmas about it. It is also a `ReceiveFrame` method that performs the step
  on the registry in place, following the handler's statements, and is proved
  equal to `Step`. The join and leave steps around the loop are methods too.
- `Wire`: how a server frame reads on the client, and how the connect path
  reaches the endpoint's route.

`Text` holds the string helpers both sides use: `trim`/`strip`, ASCII case
mapping and splitting on one character. `Wrappers` holds `Option`.

Times are integer seconds. Each server step reads the clock once, as the
parameter `now`. The logarithmic score formula is a parameter `formula`, the
truncated value of `1000 * (1 - log10(rank) / 4)`. Random draws are
parameters: the room-code draws are a sequence, and the colour is any one
allowed colour.

Behaviour that the model keeps as the code has it, although the design
describes it otherwise:

- `connect` has no guard against an existing handle. It overwrites the handle
  without closing the old transport (`websocket.ts:17`).
- `start_game` on a finished room does not reset scores or the domain log.
  Domains entered in an earlier round stay "already used"
  (`main.py:57-60`; `ServerLoop.StartInactive`).
- A submission after the time is up is refused with "Game is over", and the
  game stays open. Only a later frame that is not a submission closes it
  (`main.py:71-73, 104`).
- The server accepts `start_game` whatever the number of players. Only the
  client's button asks for two or more (`GameRoom.tsx:118`).
- A frame of unknown type changes nothing itself and goes straight to the
  end-of-game check (`main.py:57-66, 103-104`).
- `clean_inactive_rooms` is never called by the endpoint. It is modelled as
  the registry method it is.
- An update formatted after the end reports the wrapped time, as the code
  computes it (`game_logic.py:56`; see Findings). The frames of the model
  carry that time. The clamped `GameRules.TimeRemaining` is the corrected
  value, and it agrees with the frames whenever the game is not over.
- The client reads every player's name from `nickname`, but the server writes
  `username` (see Findings).

## Model

| member | source | states |
|---|---|---|
| Text.TrimEmptyIffBlank | frontend/src/components/GameRoom.tsx:71 | `trim()` gives the empty string exactly when the input is all whitespace |
| Text.TrimIdempotent | frontend/src/components/GameRoom.tsx:71-72 | trimming already trimmed text changes nothing |
| Text.TrimLowerCommute | backend/app/game_logic.py:16 | `strip().lower()` (the loader) and `lower().strip()` (the validator) give the same key for every string |
| Text.NormalizeIdempotent | backend/app/game_logic.py:33 | validating a domain the handler has already normalised looks up that same key |
| Text.Split | frontend/src/components/DomainList.tsx:12 | `split` yields at least one part, no part contains the separator, and joining the parts with the separator gives the input back |
| Text.SplitAtSeparator | frontend/src/components/DomainList.tsx:12 | a string holding the separator splits into at least two parts, so index 1 exists |
| Text.SplitWithoutSeparator | frontend/src/components/DomainList.tsx:12 | a string without the separator splits into itself alone, so index 1 is `undefined` |
| Text.SplitAtFirstSeparator | frontend/src/components/DomainList.tsx:12 | the first part ends at the first separator, and the rest splits independently |
| Text.SplitJoin3 | frontend/src/components/DomainList.tsx:12 | three separator-free fields joined by the separator split back into exactly those fields |
| Session.Without | frontend/src/utils/websocket.ts:51 | the unsubscribe filter drops every occurrence of the handler and keeps every other handler as often as before |
| Session.WithoutAppend | frontend/src/utils/websocket.ts:51 | filtering distributes over concatenation, so the remaining handlers keep their order |
| Session.WithoutAbsent | frontend/src/utils/websocket.ts:50-52 | unsubscribing a handler that is not registered changes nothing |
| Session.WithoutIdempotent | frontend/src/utils/websocket.ts:50-52 | running an unsubscribe closure twice is the same as running it once |
| Session.AddThenRemove | frontend/src/utils/websocket.ts:48-52 | subscribing a new handler and then unsubscribing it restores the list |
| Session.WithoutCommutes | frontend/src/utils/websocket.ts:50-52 | two unsubscribe closures give the same list in either order |
| Session.Socket.constructor | frontend/src/utils/websocket.ts:17 | a new transport is connecting, has sent nothing, and its promise is pending |
| Session.Socket.Send | frontend/src/utils/websocket.ts:67 | `send` appends the frame and changes nothing else |
| Session.Socket.Close | frontend/src/utils/websocket.ts:43 | `close` moves a connecting or open transport to closing and leaves its frames alone |
| Session.GameWebSocket.constructor | frontend/src/utils/websocket.ts:9-12 | a new channel has no handle and no handlers |
| Session.GameWebSocket.Connect | frontend/src/utils/websocket.ts:14-18 | a fresh connecting transport to `baseUrl + "/ws/" + roomCode + "/" + nickname` replaces the handle with no guard; if the constructor throws, nothing is stored and the promise rejects |
| Session.GameWebSocket.OnOpen | frontend/src/utils/websocket.ts:24-26 | the open event resolves a pending promise |
| Session.GameWebSocket.OnError | frontend/src/utils/websocket.ts:28-30 | the error event rejects a pending promise and keeps the handle |
| Session.GameWebSocket.OnClose | frontend/src/utils/websocket.ts:32-34 | the close event clears the handle, whichever transport closed, and leaves the handlers alone |
| Session.GameWebSocket.OnCloseOwnHandle | frontend/src/utils/websocket.ts:32-34 | the corrected close event clears the handle only when that transport is the handle |
| Session.GameWebSocket.OnMessage | frontend/src/utils/websocket.ts:19-22 | every registered handler gets the frame, once per registration, in registration order, whatever the frame's tag |
| Session.GameWebSocket.Disconnect | frontend/src/utils/websocket.ts:41-46 | `disconnect` closes the transport and clears the handle; with no handle it changes nothing, so a second call is a no-op |
| Session.GameWebSocket.AddMessageHandler | frontend/src/utils/websocket.ts:48-49 | the handler is appended at the end |
| Session.GameWebSocket.RemoveMessageHandler | frontend/src/utils/websocket.ts:50-52 | the returned closure leaves the list filtered of that handler |
| Session.GameWebSocket.StartGame | frontend/src/utils/websocket.ts:55-58 | exactly one `start_game` frame is written when the handle is open; otherwise nothing is written; the handle's ready state and promise stay as they were |
| Session.GameWebSocket.SubmitDomain | frontend/src/utils/websocket.ts:60-63 | exactly one `submit_domain` frame carrying the text unchanged is written when the handle is open; otherwise nothing is written; the handle's ready state and promise stay as they were |
| Session.GameWebSocket.SendMessage | frontend/src/utils/websocket.ts:65-69 | a frame is written only to a non-null, open handle; otherwise it is dropped, with no queueing and no change of state |
| Session.LateCloseDropsStart | frontend/src/utils/websocket.ts:32-34 | connect, open, disconnect, connect, open, then the first transport's late close event: the next start command is dropped |
| Session.LateCloseKeepsHandle | frontend/src/utils/websocket.ts:32-34 | the same sequence with the corrected close event delivers the start command |
| RoomView.InitialGameState | frontend/src/components/GameRoom.tsx:19-25 | the first snapshot is inactive, 60 seconds, no players, no domains and no latest domain |
| RoomView.Fold | frontend/src/components/GameRoom.tsx:39-49 | `game_update` replaces the game state and clears the error, `error` sets the error, `game_over` sets the winner from its payload; every other fact is kept |
| RoomView.FoldAll | frontend/src/components/GameRoom.tsx:39-49 | after a stream of frames, the game state, the error and the winner are each the initial one or taken from some frame of the stream (the error may also be the empty string an update leaves) |
| RoomView.FoldIdempotent | frontend/src/components/GameRoom.tsx:39-49 | running the handler twice on one frame, as a double registration does, is the same as running it once |
| RoomView.NoUpdateKeepsGameState | frontend/src/components/GameRoom.tsx:39-49 | frames other than `game_update` never change the game state |
| RoomView.LastUpdateWins | frontend/src/components/GameRoom.tsx:39-41 | the game state is exactly the payload of the last `game_update`, with no merging; the error is empty unless an `error` frame came later |
| RoomView.WinnerSticky | frontend/src/components/GameRoom.tsx:44-49 | with no `game_over` frame the winner stays as it was |
| RoomView.WinnerFromLastGameOver | frontend/src/components/GameRoom.tsx:44-49 | after a `game_over` frame the winner is its payload, whatever updates and errors follow |
| RoomView.GameRoom.constructor | frontend/src/components/GameRoom.tsx:19-31 | the view starts from the initial snapshot, no error, an empty input box and no winner |
| RoomView.GameRoom.BeginConnect | frontend/src/components/GameRoom.tsx:36 | mounting starts a connect to the room and nickname: the new transport is connecting, has sent nothing and its promise is pending; nothing is registered yet |
| RoomView.GameRoom.FinishConnect | frontend/src/components/GameRoom.tsx:36-37 | a resolved connect registers exactly one handler; a rejected or throwing one shows "Failed to connect to game server" and registers none |
| RoomView.GameRoom.Teardown | frontend/src/components/GameRoom.tsx:53-56 | the intended cleanup unsubscribes the handler and disconnects: the old transport moves towards closed with its frames and promise unchanged |
| RoomView.GameRoom.HandleMessage | frontend/src/components/GameRoom.tsx:39-49 | one frame updates the view as the fold does: `game_update` replaces the state and clears the error, `error` sets the error, `game_over` sets the winner |
| RoomView.GameRoom.SetDomain | frontend/src/components/GameRoom.tsx:157 | typing changes only the input box |
| RoomView.GameRoom.HandleStartGame | frontend/src/components/GameRoom.tsx:65-67 | the start button sends one start command through the channel when it is open, and leaves the transport's ready state and promise as they were |
| RoomView.GameRoom.HandleSubmitDomain | frontend/src/components/GameRoom.tsx:69-75 | blank input sends nothing and stays in the box; otherwise the trimmed, non-empty text is sent once and the box is cleared; the transport's ready state and promise stay as they were |
| RoomView.GameRoom.HandleNewGame | frontend/src/components/GameRoom.tsx:77-80 | acknowledging the outcome clears the winner and sends exactly one start command; the transport's ready state and promise stay as they were |
| RoomView.RemountKeepsStaleSession | frontend/src/components/GameRoom.tsx:53-56 | leaving a room and joining another leaves two handlers registered and the first transport open, so one frame runs both handlers |
| RoomView.RemountWithTeardown | frontend/src/components/GameRoom.tsx:53-56 | with the cleanup run on leaving, one handler remains and the first transport is closing |
| DomainListing.FindByNickname | frontend/src/components/DomainList.tsx:12 | `find` returns the first player whose nickname equals the name, or none when no player does |
| DomainListing.SecondField | frontend/src/components/DomainList.tsx:12 | `split("_")[1]` exists exactly when the id holds `_`, and it is the `_`-free text between the first `_` and the next `_` or the end |
| DomainListing.GetPlayerColor | frontend/src/components/DomainList.tsx:11-14 | the colour is never empty: it is `#000000` or the colour of a player whose nickname equals the id's second field |
| DomainListing.ColorOfFirstMatch | frontend/src/components/DomainList.tsx:12-13 | the colour is that of the first player named by the id's second field, or `#000000` when that colour is empty |
| DomainListing.NoMatchGetsDefault | frontend/src/components/DomainList.tsx:13 | with no player so named the colour is `#000000` |
| DomainListing.NoUnderscoreGetsDefault | frontend/src/components/DomainList.tsx:12-13 | an id without `_` has no second field and gets `#000000` when every player has a nickname |
| DomainListing.SecondFieldOfServerId | frontend/src/components/DomainList.tsx:12 | if the id `room_username_timestamp` has parts without `_`, the second field is the username; the converse does not hold (see the next two rows) |
| DomainListing.UnderscoreUsernameNotRecovered | frontend/src/components/DomainList.tsx:12 | a username containing `_` is never recovered from the id |
| DomainListing.UnderscoreRoomShiftsField | frontend/src/components/DomainList.tsx:12 | for a room code `a_b` and `_`-free parts `a`, `b`, username and timestamp, the second field is `b`, not the username |
| DomainListing.Rows | frontend/src/components/DomainList.tsx:20-37 | one row per entry, in stored order, each with the entry's rank, domain and colour |
| DomainListing.RowsAppend | frontend/src/components/DomainList.tsx:20-37 | appending an entry to the log appends its row at the bottom |
| Lobby.GeneratedCodeSurvivesTyping | frontend/src/app/page.tsx:113 | a generated room code (six characters from A-Z and 0-9) is unchanged by the box's upper-casing |
| Lobby.UpperIdempotent | frontend/src/app/page.tsx:113 | upper-casing a code twice is upper-casing it once |
| Lobby.Home.constructor | frontend/src/app/page.tsx:9-15 | the page starts with empty nickname, code and error and no active room |
| Lobby.Home.SetNickname | frontend/src/app/page.tsx:78 | typing a nickname changes only the nickname |
| Lobby.Home.SetRoomCode | frontend/src/app/page.tsx:113 | the typed room code is stored upper-cased |
| Lobby.Home.HandleJoinRoom | frontend/src/app/page.tsx:32-43 | the nickname is checked before the room code; with both present the room becomes active and an earlier error stays |
| Lobby.Home.HandleCreateRoom | frontend/src/app/page.tsx:17-30 | an empty nickname is refused before any request; a returned code becomes the active room; a failed request shows "Failed to create room" |
| Lobby.Home.Exit | frontend/src/app/page.tsx:50 | exit clears the active room and nothing else |
| ServerModels.PutPlayerKeepsKeysDistinct | backend/app/websocket_manager.py:42-46 | storing a player under its id keeps the room's ids distinct and makes the id present |
| ServerModels.RemovePlayer | backend/app/websocket_manager.py:57-58 | deleting an id removes exactly the players under it and keeps ids distinct |
| ServerModels.RemoveAbsentPlayer | backend/app/websocket_manager.py:57 | deleting an id that is not there changes nothing |
| GameRules.KeyTableKeys | backend/app/game_logic.py:15-16 | a key is in the table exactly when some line produced it |
| GameRules.KeyTableLastWins | backend/app/game_logic.py:15-16 | a key is stored under the 1-based position of its last occurrence |
| GameRules.RankTableSnoc | backend/app/game_logic.py:15-16 | reading one more line stores its 1-based number under its key, over any earlier value |
| GameRules.RankTable | backend/app/game_logic.py:15-16 | the key of the file's last line is always in the table, under that line's 1-based number |
| GameRules.RankTableKeys | backend/app/game_logic.py:15-16 | a key is in the rank table exactly when some line strips and lower-cases to it |
| GameRules.RankTableLastWins | backend/app/game_logic.py:15-16 | a key's rank is the number of the last line that normalises to it, so later duplicates overwrite earlier ones |
| GameRules.CalculateScore | backend/app/game_logic.py:21-29 | rank 0 or below scores 0; a positive rank scores exactly the formula's truncated value when that is above 1, and 1 otherwise |
| GameRules.FirstMaxIndex | backend/app/game_logic.py:47 | `max` returns a player no one outscores, the first such in order |
| GameRules.GetWinner | backend/app/game_logic.py:43-47 | no winner exactly when there are no players; otherwise a top scorer that no earlier player ties |
| GameRules.GameOverPersists | backend/app/game_logic.py:37-41 | a game is never over when inactive or unstarted, nor before 60 seconds have passed; once over, it stays over as time passes |
| GameRules.TimeRemainingAsWritten | backend/app/game_logic.py:55-58 | as written, the time is 60 for an inactive or unstarted game, 60 minus the elapsed seconds while the game runs, and wraps to a day minus the overrun once the game is over; it always lies in 0 to 86399 |
| GameRules.TimeRemainingWrapsAfterEnd | backend/app/game_logic.py:55-58 | as written, 65 seconds into a 60-second game the game is over and the update frame reports 86395 seconds left, where the corrected time is 0 |
| GameRules.TimeRemaining | backend/app/game_logic.py:55-59 | the remaining time is never negative, is 60 before a start, never exceeds 60 after the start, and is 0 exactly when the game is over |
| GameRules.TimeRemainingAgreesBeforeEnd | backend/app/game_logic.py:55-59 | the corrected time equals the one written whenever the game is not over |
| GameRules.FormatGameUpdate | backend/app/game_logic.py:49-71 | the update carries the activity flag, the remaining time as the source computes it (wrapping after the end), the players in dict order, the domain log unchanged and the given latest entry; before the end that time equals the clamped one |
| GameRules.GameLogic.constructor | backend/app/game_logic.py:7-9 | the rank table starts empty |
| GameRules.GameLogic.LoadDomainRankings | backend/app/game_logic.py:11-19 | a missing file leaves an empty table; otherwise the table is the previous one overwritten with the lines' rank table |
| GameRules.GameLogic.ValidateDomain | backend/app/game_logic.py:31-35 | `(true, r)` exactly when the lower-cased, stripped domain has rank `r`, and `(false, None)` otherwise |
| GameRules.ValidAgainstFile | backend/app/game_logic.py:31-35 | against a loaded file, a domain is valid exactly when some line normalises to the same key; its rank is the number of such a line, and no later line normalises to that key |
| ConnectionRegistry.FreeColors | backend/app/websocket_manager.py:38 | the available colours are exactly the palette colours not in use |
| ConnectionRegistry.AfterDisconnect | backend/app/websocket_manager.py:56-58 | after a disconnect the same rooms exist and none holds the id |
| ConnectionRegistry.AfterDisconnectIdempotent | backend/app/websocket_manager.py:51-58 | disconnecting an id twice is the same as disconnecting it once |
| ConnectionRegistry.JoinedWellFormed | backend/app/websocket_manager.py:41-48 | a join keeps the room well formed and puts the player in it |
| ConnectionRegistry.WithoutPlayerWellFormed | backend/app/websocket_manager.py:57-58 | removing a player keeps the room well formed |
| ConnectionRegistry.FreeColorWhileRoomLeft | backend/app/websocket_manager.py:37-39 | while a room has fewer than ten players, some palette colour is free |
| ConnectionRegistry.PaletteDistinct | backend/app/websocket_manager.py:13-17 | the ten palette colours are distinct |
| ConnectionRegistry.WebSocketManager.constructor | backend/app/websocket_manager.py:10-12 | no connections and no rooms |
| ConnectionRegistry.WebSocketManager.GenerateRoomCode | backend/app/websocket_manager.py:19-23 | the first drawn code that names no room is returned: six characters from A-Z and 0-9, not a key of `rooms` |
| ConnectionRegistry.WebSocketManager.PickColor | backend/app/websocket_manager.py:37-39 | the colour is from the palette, and unused in the room whenever some palette colour is unused |
| ConnectionRegistry.WebSocketManager.Connect | backend/app/websocket_manager.py:25-49 | the id `room_username_stamp` becomes active; the room is created only when absent and other rooms are untouched; the player joins with score 0 and an allowed colour, and the room's activity time is now |
| ConnectionRegistry.WebSocketManager.Disconnect | backend/app/websocket_manager.py:51-58 | the id leaves the active set and every room's players, and every room stays |
| ConnectionRegistry.WebSocketManager.CleanInactiveRooms | backend/app/websocket_manager.py:60-67 | exactly the rooms idle for more than 600 seconds are deleted; the others are untouched |
| ConnectionRegistry.ActiveIds | backend/app/websocket_manager.py:71-73 | the recipients are exactly the room's players whose id is live, no more than there are players, and without repeats when ids are distinct |
| ConnectionRegistry.WebSocketManager.BroadcastRecipients | backend/app/websocket_manager.py:69-73 | the frame goes to the room's players whose id is active, once each and in the room's order, and to nobody for an unknown room |
| ConnectionRegistry.WebSocketManager.GetRoom | backend/app/websocket_manager.py:75-76 | the room under the code, or none |
| ServerLoop.CloseIfOver | backend/app/main.py:103-119 | a game whose time is up is closed at `now`, with a `game_over` broadcast naming the winner only when there are players |
| ServerLoop.Start | backend/app/main.py:57-64 | `start_game` on an inactive game starts it at `now` and broadcasts one update with 60 seconds left; on a running game it does nothing |
| ServerLoop.Submit | backend/app/main.py:66-101 | a refusal carries one of the four error texts; a submission passes only for a running game not yet over, with a known, unused domain; an accepted one appends the entry and adds its score to the sender |
| ServerLoop.Step | backend/app/main.py:57-119 | a frame keeps the room code, the number of players and each one's id, name and colour in place, never lowers a score, keeps the domain log as a prefix and adds at most one entry; only a raising submission aborts, with nothing changed |
| ServerLoop.StepUpdatesInRange | backend/app/main.py:57-101 | for a game whose start time is not in the future, every update a frame broadcasts reports between 1 and 60 seconds left, because the handler formats updates only before the end |
| ServerLoop.StartInactive | backend/app/main.py:57-64 | starting an inactive game sets only the flag and the start time, keeps scores and the domain log, and broadcasts the update |
| ServerLoop.StartActive | backend/app/main.py:57-58 | starting a running game whose time is not up does nothing |
| ServerLoop.OverGameClosed | backend/app/main.py:103-119 | a game whose time is up is closed by the next frame that is not a submission |
| ServerLoop.SubmitRefusals | backend/app/main.py:66-85 | a submission is refused, in this order, as "Game not started", "Game is over", "Invalid domain" or "Domain already used"; a refusal only answers the sender |
| ServerLoop.SubmitAccepted | backend/app/main.py:87-101 | an accepted submission appends exactly one entry `{domain, rank, sender}`, adds the score to the sender alone, and broadcasts the update naming the entry |
| ServerLoop.SubmitWithoutPlayer | backend/app/main.py:89 | a submission from a connection without a player entry raises, and the connection is dropped with nothing sent |
| ServerLoop.AddScoreKeepsIds | backend/app/main.py:89 | adding to a score keeps every player's id and position |
| ServerLoop.StepKeepsWellFormed | backend/app/main.py:83-97 | every frame keeps player ids distinct and the domain log free of repeats |
| ServerLoop.ReceiveFrame | backend/app/main.py:50-132 | one frame on the registry: "Room not found" with nothing changed for a missing room; otherwise the room's state and the frames sent are those of the step, or the connection is dropped when the handler raises |
| ServerLoop.AcceptConnection | backend/app/main.py:38-47 | the id `room_username_stamp` becomes active, the room exists and holds the player with score 0 and an allowed colour, other rooms are untouched, and the room's state is broadcast |
| ServerLoop.ConnectionClosed | backend/app/main.py:121-128 | a closed connection leaves every room, and its room, if any, hears the new state |
| Wire.Member | frontend/src/types/game.ts:2 | reading a member gives its value when present and `undefined` otherwise |
| Wire.ReadFrame | backend/app/game_logic.py:51-70 | the client sees the update's flag, time, players (named from the key it reads) and domain log in the order the server wrote them |
| Wire.NicknameNeverArrives | frontend/src/types/game.ts:2 | no player object the server writes has a `nickname` member |
| Wire.UsernameArrives | backend/app/game_logic.py:62 | reading `username`, every player carries its name |
| Wire.EveryRowDefaultColor | frontend/src/components/DomainList.tsx:12-13 | as written, every row of the domain list gets `#000000` |
| Wire.RowColorOfSubmitter | frontend/src/components/DomainList.tsx:12-13 | reading `username`, a row is coloured as the first player with the submitter's name, when the id's parts have no `_` |
| Wire.WinnerNameLost | frontend/src/components/GameRoom.tsx:45-48 | as written, the announced winner has no name |
| Wire.WinnerNamed | backend/app/main.py:111-115 | reading `username`, the announced winner carries the server's name |
| Wire.StartButtonFollowsServer | frontend/src/components/GameRoom.tsx:118 | the start button shows exactly for an inactive game with more than one player |
| Wire.RouteParams | backend/app/main.py:36 | the endpoint extracts two non-empty parameters without `/` |
| Wire.RouteRoundTrip | frontend/src/utils/websocket.ts:17 | the connect path, as a raw string, reaches the endpoint with the room code and nickname intact when neither is empty or holds `/` (the browser's URL parsing in between is not modelled) |
| Wire.SlashNicknameMissesRoute | frontend/src/utils/websocket.ts:17 | a nickname holding `/`, sent unencoded, makes the raw path match no route of that shape (the browser's URL parsing in between is not modelled) |

## Left out

- Transport framing, the websocket handshake, `websocket.accept`, `send_json`
  and `receive_json` are I/O. A transport is its ready state, the frames
  written to it and the events it raises.
- JSON parsing and serialisation are not modelled. A parsed player object is
  the map of its string members. Malformed frames, a frame without `type`,
  and a `submit_domain` without `domain` are not modelled.
- The file open in `load_domain_rankings` is an `Option` of the file's lines.
  The `fetch` in `handleCreateRoom` is an `Option` of the returned code.
- GameRules.CalculateScore: the float formula `1000 * (1 - log10(rank) / log10(10000))`
  is the parameter `formula`, its truncated value. Only the integer guards are
  modelled.
- Each server step reads the clock once. The source calls `datetime.now()`
  separately for each use within one frame. Times are whole seconds, so the
  sub-second part of a `timedelta` is not modelled.
- `Room.last_activity`'s default is evaluated once, when the module is
  imported. This is not modelled: `connect` overwrites it at once.
- ConnectionRegistry.WebSocketManager.GenerateRoomCode: the endless drawing
  loop is a finite sequence of draws. The result is `None` when every draw
  names a room.
- Randomness in the colour choice is a nondeterministic pick from the allowed
  colours.
- Concurrency: several connections share `rooms`, and React runs effects
  asynchronously. Every step here is a single sequential step. The promise
  machinery is the settlement field on the transport.
- A `send_json` that fails part-way through a broadcast is not modelled. The
  exception it raises in the sender's handler is not modelled either.
- Rendering is not modelled: the JSX markup, `PlayerList.tsx` and
  `layout.tsx`.
- Text: whitespace is the six ASCII whitespace characters. Case mapping
  covers ASCII letters only. Unicode whitespace and case rules are not
  modelled.
- URL encoding is not modelled. Neither is the percent-decoding the endpoint
  applies to path parameters.
- Wire.RouteRoundTrip, Wire.SlashNicknameMissesRoute: these relate the raw
  path string to the route. The browser's URL parsing of `new WebSocket(url)`
  between them is not modelled: `?` starting a query, `#` making the
  constructor throw, `\` read as `/`, tab and newline removed, surrounding
  spaces stripped, and `.` and `..` segments resolved. A nickname using
  these reaches the route changed; `../CD/ann`, for one, reaches it as
  room `CD` and user `ann`.

## Findings

| source | as written | input that shows it | evidently intended | confidence | as-written member | corrected member |
|---|---|---|---|---|---|---|
| backend/app/game_logic.py:56 | `(GAME_DURATION - elapsed).seconds` takes the seconds field of a negative `timedelta`, which wraps into the day, so `max(0, ...)` never clamps | game started at 0, a player joins at 65 before any other frame: the update reports 86395 seconds | 0 seconds once the duration has passed | high; not executed | GameRules.TimeRemainingWrapsAfterEnd | GameRules.TimeRemaining |
| frontend/src/utils/websocket.ts:32-34 | every transport's `onclose` sets the shared handle to null, even after `connect` has replaced it | connect, open, disconnect, connect, open, then the first transport's close event arrives: the next start command is dropped | a close event clears the handle only if it belongs to that transport | medium; not executed | Session.LateCloseDropsStart | Session.GameWebSocket.OnCloseOwnHandle |
| frontend/src/components/GameRoom.tsx:53-56 | the cleanup is returned from inside the async `connect`, so the effect registers none | join room AB12CD, exit, join XY34ZW: two handlers stay registered and the first transport stays open | unmounting unsubscribes the handler and disconnects | high; not executed | RoomView.RemountKeepsStaleSession | RoomView.GameRoom.Teardown |
| frontend/src/types/game.ts:2 | the client reads the player name from `nickname`, while the server writes it as `username` (backend/app/game_logic.py:62, backend/app/main.py:112) | any `game_update` with entries: every row is drawn in `#000000`, and the `game_over` winner has no name | the client reads the member the server writes | high; not executed | Wire.EveryRowDefaultColor | Wire.RowColorOfSubmitter |
