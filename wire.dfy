/**
 * How a server frame reads on the client: the server writes each player
 * object with the members `username`, `color` and `score`
 * (backend/app/game_logic.py, backend/app/main.py), and the client reads
 * the name from the member its type declares (frontend/src/types/game.ts).
 * Parsing itself is not modelled; a parsed object is the map of its
 * string members. The module also relates the client's connect path to the
 * parameters the server's endpoint `/ws/{room_code}/{username}` extracts.
 */
module Wire {
  import opened Wrappers
  import opened Text
  import ServerModels
  import ClientTypes
  import DomainListing
  import GameRules
  import RoomView
  import Session

  /** The member the server writes the name under. */
  const ServerNameKey := "username"

  /** The member the client reads the name from. */
  const ClientNameKey := "nickname"

  /** The string members of a player object as the server writes it. */
  function PlayerObject(v: ServerModels.PlayerView): map<string, string> {
    map["username" := v.username, "color" := v.color]
  }

  /** Reading a member of a parsed object: `undefined` when it is absent. */
  function Member(obj: map<string, string>, key: string): (r: Option<string>)
    ensures r.Some? <==> key in obj
    ensures r.Some? ==> r.value == obj[key]
  {
    if key in obj then Some(obj[key]) else None
  }

  /** A player object read on the client, taking the name from `nameKey`. */
  function ReadPlayer(v: ServerModels.PlayerView, nameKey: string): ClientTypes.Player {
    ClientTypes.Player(Member(PlayerObject(v), nameKey), v.color, v.score)
  }

  function ReadEntry(e: ServerModels.DomainEntry): ClientTypes.DomainEntry {
    ClientTypes.DomainEntry(e.domain, e.rank, e.playerId)
  }

  /** A server frame as the client's handler sees it, names read from `nameKey`. */
  function ReadFrame(m: ServerModels.ServerMessage, nameKey: string): (r: ClientTypes.Inbound)
    ensures m.GameUpdate? <==> r.GameUpdate?
    ensures m.GameUpdate? ==>
      && |r.gameState.players| == |m.gameState.players|
      && (forall i :: 0 <= i < |m.gameState.players| ==>
            r.gameState.players[i] == ReadPlayer(m.gameState.players[i], nameKey))
      && |r.gameState.enteredDomains| == |m.gameState.enteredDomains|
      && (forall i :: 0 <= i < |m.gameState.enteredDomains| ==>
            r.gameState.enteredDomains[i] == ReadEntry(m.gameState.enteredDomains[i]))
      && r.gameState.isActive == m.gameState.isActive
      && r.gameState.timeRemaining == m.gameState.timeRemaining
    ensures m.GameOver? ==> r == ClientTypes.GameOver(ReadPlayer(m.winner, nameKey))
    ensures m.ErrorMessage? ==> r == ClientTypes.ErrorMessage(m.message)
  {
    match m
    case GameUpdate(gs) =>
      ClientTypes.GameUpdate(ClientTypes.GameState(
        gs.isActive,
        gs.timeRemaining,
        seq(|gs.players|, i requires 0 <= i < |gs.players| => ReadPlayer(gs.players[i], nameKey)),
        seq(|gs.enteredDomains|, i requires 0 <= i < |gs.enteredDomains| => ReadEntry(gs.enteredDomains[i])),
        match gs.latestDomain
        case None => None
        case Some(e) => Some(ReadEntry(e))))
    case ErrorMessage(text) => ClientTypes.ErrorMessage(text)
    case GameOver(w) => ClientTypes.GameOver(ReadPlayer(w, nameKey))
  }

  /** Read as the client's type declares, no player ever has a nickname. */
  lemma NicknameNeverArrives(v: ServerModels.PlayerView)
    ensures ReadPlayer(v, ClientNameKey).nickname == None
  {
  }

  /** Read from the member the server writes, every player carries its username. */
  lemma UsernameArrives(v: ServerModels.PlayerView)
    ensures ReadPlayer(v, ServerNameKey).nickname == Some(v.username)
  {
  }

  /**
   * As the client reads frames, every row of the domain list gets the
   * default colour: the id's second field is a string, and no player's
   * nickname is.
   */
  lemma EveryRowDefaultColor(m: ServerModels.ServerMessage, room: string, username: string, stamp: string)
    requires m.GameUpdate?
    ensures var r := ReadFrame(m, ClientNameKey);
      DomainListing.GetPlayerColor(r.gameState.players, ServerModels.WebSocketId(room, username, stamp))
        == DomainListing.DefaultColor
  {
    var id := ServerModels.WebSocketId(room, username, stamp);
    assert id[|room|] == '_';
    SplitAtSeparator(id, '_');
    var players := ReadFrame(m, ClientNameKey).gameState.players;
    forall j | 0 <= j < |players| ensures players[j].nickname != DomainListing.SecondField(id) {
      NicknameNeverArrives(m.gameState.players[j]);
    }
    DomainListing.NoMatchGetsDefault(players, id);
  }

  /**
   * Reading the name from `username`, an entry whose id was built from
   * `_`-free parts is coloured as the first player with that username.
   */
  lemma RowColorOfSubmitter(m: ServerModels.ServerMessage, room: string, username: string, stamp: string, i: nat)
    requires m.GameUpdate? && i < |m.gameState.players|
    requires '_' !in room && '_' !in username && '_' !in stamp
    requires m.gameState.players[i].username == username
    requires forall j :: 0 <= j < i ==> m.gameState.players[j].username != username
    ensures var r := ReadFrame(m, ServerNameKey);
      var p := m.gameState.players[i];
      DomainListing.GetPlayerColor(r.gameState.players, ServerModels.WebSocketId(room, username, stamp))
        == if p.color != "" then p.color else DomainListing.DefaultColor
  {
    var id := ServerModels.WebSocketId(room, username, stamp);
    DomainListing.SecondFieldOfServerId(room, username, stamp);
    var players := ReadFrame(m, ServerNameKey).gameState.players;
    forall j | 0 <= j <= i ensures players[j].nickname == Some(m.gameState.players[j].username) {
      UsernameArrives(m.gameState.players[j]);
    }
    DomainListing.ColorOfFirstMatch(players, id, i);
  }

  /** As the client reads frames, the announced winner has no name. */
  lemma WinnerNameLost(v: RoomView.View, w: ServerModels.PlayerView)
    ensures RoomView.Fold(v, ReadFrame(ServerModels.GameOver(w), ClientNameKey)).winner
      == Some(RoomView.Winner(None, w.score))
  {
  }

  /** Reading the name from `username`, the announced winner is named. */
  lemma WinnerNamed(v: RoomView.View, w: ServerModels.PlayerView)
    ensures RoomView.Fold(v, ReadFrame(ServerModels.GameOver(w), ServerNameKey)).winner
      == Some(RoomView.Winner(Some(w.username), w.score))
  {
  }

  /**
   * The client's start button, read from an update the server formatted,
   * shows exactly for an inactive game with more than one player; the
   * server itself accepts `start_game` from any player count.
   */
  lemma StartButtonFollowsServer(gs: ServerModels.GameState, now: int, nameKey: string)
    ensures var m := GameRules.FormatGameUpdate(gs, now, None);
      RoomView.ShowStartButton(ReadFrame(m, nameKey).gameState) <==> !gs.isActive && |gs.players| > 1
  {
  }

  /**
   * The room code and username the endpoint `/ws/{room_code}/{username}`
   * extracts from a path: each parameter is a non-empty run without `/`.
   */
  function RouteParams(path: string): (r: Option<(string, string)>)
    ensures r.Some? ==> r.value.0 != "" && r.value.1 != "" && '/' !in r.value.0 && '/' !in r.value.1
  {
    if |path| >= 4 && path[..4] == "/ws/" then
      var parts := Split(path[4..], '/');
      if |parts| == 2 && parts[0] != "" && parts[1] != "" then Some((parts[0], parts[1])) else None
    else None
  }

  /**
   * The client's connect path, taken as the raw string, reaches the
   * endpoint with its room code and nickname intact.
   */
  lemma RouteRoundTrip(roomCode: string, nickname: string)
    requires roomCode != "" && nickname != "" && '/' !in roomCode && '/' !in nickname
    ensures RouteParams(Session.ConnectPath(roomCode, nickname)) == Some((roomCode, nickname))
  {
    var path := Session.ConnectPath(roomCode, nickname);
    assert path[..4] == "/ws/";
    assert path[4..] == roomCode + ['/'] + nickname;
    SplitAtFirstSeparator(roomCode, '/', nickname);
    SplitWithoutSeparator(nickname, '/');
  }

  /**
   * A nickname holding `/`, sent unencoded, makes the raw path miss every
   * endpoint of that shape.
   */
  lemma SlashNicknameMissesRoute(roomCode: string, nickname: string)
    requires '/' !in roomCode && '/' in nickname
    ensures RouteParams(Session.ConnectPath(roomCode, nickname)) == None
  {
    var path := Session.ConnectPath(roomCode, nickname);
    assert path[..4] == "/ws/";
    assert path[4..] == roomCode + ['/'] + nickname;
    SplitAtFirstSeparator(roomCode, '/', nickname);
    SplitAtSeparator(nickname, '/');
  }
}
