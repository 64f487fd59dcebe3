/**
 * The game server's websocket endpoint (backend/app/main.py): what one
 * inbound frame does to its room, with the guards in the order the handler
 * tests them, followed by the end-of-game check; plus the join and leave
 * steps around the receive loop. Each step reads the clock once (`now`), and
 * `formula` is the truncated value of the logarithmic score formula for the
 * submitted domain's rank.
 */
module ServerLoop {
  import opened Wrappers
  import opened Text
  import opened ServerModels
  import opened GameRules
  import opened ConnectionRegistry

  const RoomNotFound := "Room not found"
  const GameNotStarted := "Game not started"
  const GameIsOver := "Game is over"
  const InvalidDomain := "Invalid domain"
  const DomainAlreadyUsed := "Domain already used"

  /** A frame sent back to the sender only, or to every active player of the room. */
  datatype Effect = Reply(msg: ServerMessage) | Broadcast(msg: ServerMessage)

  /**
   * What one frame does to a room's game state. `aborted` is the handler
   * raising because the sender has no player entry: the connection is then
   * dropped and nothing is sent.
   */
  datatype Outcome = Outcome(gameState: GameState, effects: seq<Effect>, aborted: bool)

  function Refuse(gs: GameState, message: string): Outcome {
    Outcome(gs, [Reply(ErrorMessage(message))], false)
  }

  /**
   * The check after every handled frame: a game whose time is up is closed,
   * announcing the winner when there is one.
   */
  function CloseIfOver(o: Outcome, now: int): (r: Outcome)
    requires !o.aborted
    ensures !r.aborted
    ensures !IsGameOver(o.gameState, now) ==> r == o
    ensures IsGameOver(o.gameState, now) ==>
      && r.gameState == o.gameState.(isActive := false, endTime := Some(now))
      && r.effects == o.effects + (if o.gameState.players == [] then []
           else [Broadcast(GameOver(ViewOfPlayer(GetWinner(o.gameState).value)))])
  {
    if IsGameOver(o.gameState, now) then
      var gs := o.gameState;
      var announce := match GetWinner(gs)
        case None => []
        case Some(w) => [Broadcast(GameOver(ViewOfPlayer(w)))];
      Outcome(gs.(isActive := false, endTime := Some(now)), o.effects + announce, false)
    else o
  }

  /**
   * `start_game`: an inactive game becomes active from `now`, keeping its
   * players and domain log, and everyone is told that the full duration is
   * left; a running game is left alone.
   */
  function Start(gs: GameState, now: int): (o: Outcome)
    ensures !o.aborted
    ensures gs.isActive ==> o == Outcome(gs, [], false)
    ensures !gs.isActive ==>
      && o.gameState.isActive && o.gameState.startTime == Some(now) && o.gameState.endTime == gs.endTime
      && o.gameState.players == gs.players && o.gameState.enteredDomains == gs.enteredDomains
      && o.gameState.roomCode == gs.roomCode
      && |o.effects| == 1 && o.effects[0].Broadcast? && o.effects[0].msg.GameUpdate?
      && o.effects[0].msg.gameState.isActive && o.effects[0].msg.gameState.timeRemaining == GameDuration
  {
    if !gs.isActive then
      var started := gs.(isActive := true, startTime := Some(now));
      Outcome(started, [Broadcast(FormatGameUpdate(started, now, None))], false)
    else Outcome(gs, [], false)
  }

  /** How `submit_domain` ends before the end-of-game check. */
  datatype Verdict =
    | Refused(message: string)
    | NoPlayer
    | Accepted(scored: GameState, entry: DomainEntry)

  /**
   * `submit_domain`, its guards in source order: a refusal names one of the
   * four errors; otherwise the game is running and the normalised domain is
   * ranked and new, and the frame either credits the sender or finds no
   * player entry.
   */
  function Submit(logic: GameLogic, gs: GameState, id: string, raw: string, now: int, formula: int): (v: Verdict)
    reads logic
    ensures v.Refused? ==> v.message in [GameNotStarted, GameIsOver, InvalidDomain, DomainAlreadyUsed]
    ensures !v.Refused? ==>
      && gs.isActive && !IsGameOver(gs, now)
      && Normalize(raw) in logic.domainRankings && !DomainUsed(gs.enteredDomains, Normalize(raw))
    ensures v.NoPlayer? <==> !v.Refused? && !HasPlayer(gs.players, id)
    ensures v.Accepted? ==>
      && v.entry == DomainEntry(Normalize(raw), logic.domainRankings[Normalize(raw)], id)
      && v.scored.enteredDomains == gs.enteredDomains + [v.entry]
      && v.scored.players == AddScore(gs.players, id, CalculateScore(v.entry.rank, formula))
      && v.scored.isActive && v.scored.startTime == gs.startTime && v.scored.endTime == gs.endTime
      && v.scored.roomCode == gs.roomCode
  {
    NormalizeIdempotent(raw);
    if !gs.isActive then Refused(GameNotStarted)
    else if IsGameOver(gs, now) then Refused(GameIsOver)
    else
      var domain := Normalize(raw);
      var (valid, rank) := logic.ValidateDomain(domain);
      if !valid then Refused(InvalidDomain)
      else if DomainUsed(gs.enteredDomains, domain) then Refused(DomainAlreadyUsed)
      else if !HasPlayer(gs.players, id) then NoPlayer
      else
        var entry := DomainEntry(domain, rank.value, id);
        Accepted(gs.(players := AddScore(gs.players, id, CalculateScore(rank.value, formula)),
                     enteredDomains := gs.enteredDomains + [entry]),
                 entry)
  }

  /**
   * One frame on an existing room: the command, then the end-of-game check,
   * which a refused submission skips.
   */
  function Step(logic: GameLogic, gs: GameState, id: string, cmd: Command, now: int, formula: int): (o: Outcome)
    reads logic
    ensures o.aborted ==> cmd.SubmitDomain? && o.effects == [] && o.gameState == gs
    ensures o.gameState.roomCode == gs.roomCode
    ensures |o.gameState.players| == |gs.players|
    ensures forall i :: 0 <= i < |gs.players| ==>
      && o.gameState.players[i].websocketId == gs.players[i].websocketId
      && o.gameState.players[i].username == gs.players[i].username
      && o.gameState.players[i].color == gs.players[i].color
      && o.gameState.players[i].score >= gs.players[i].score
    ensures gs.enteredDomains <= o.gameState.enteredDomains
    ensures |o.gameState.enteredDomains| <= |gs.enteredDomains| + 1
  {
    match cmd
    case StartGame => CloseIfOver(Start(gs, now), now)
    case SubmitDomain(raw) =>
      (match Submit(logic, gs, id, raw, now, formula)
       case Refused(message) => Refuse(gs, message)
       case NoPlayer => Outcome(gs, [], true)
       case Accepted(scored, entry) =>
         CloseIfOver(Outcome(scored, [Broadcast(FormatGameUpdate(scored, now, Some(entry)))], false), now))
    case OtherCommand(_) => CloseIfOver(Outcome(gs, [], false), now)
  }

  /**
   * Starting an inactive game sets the flag and the start time and nothing
   * else: scores and the domain log of an earlier game are kept.
   */
  lemma StartInactive(logic: GameLogic, gs: GameState, id: string, now: int, formula: int)
    requires !gs.isActive
    ensures var o := Step(logic, gs, id, StartGame, now, formula);
      && o.gameState == gs.(isActive := true, startTime := Some(now))
      && o.gameState.players == gs.players && o.gameState.enteredDomains == gs.enteredDomains
      && o.effects == [Broadcast(FormatGameUpdate(o.gameState, now, None))]
      && !o.aborted
  {
  }

  /** Starting a running game whose time is not up does nothing at all. */
  lemma StartActive(logic: GameLogic, gs: GameState, id: string, now: int, formula: int)
    requires gs.isActive && !IsGameOver(gs, now)
    ensures Step(logic, gs, id, StartGame, now, formula) == Outcome(gs, [], false)
  {
  }

  /** A game whose time is up is closed by the next frame that is not a submission. */
  lemma OverGameClosed(logic: GameLogic, gs: GameState, id: string, cmd: Command, now: int, formula: int)
    requires IsGameOver(gs, now) && !cmd.SubmitDomain?
    ensures var o := Step(logic, gs, id, cmd, now, formula);
      && !o.aborted
      && o.gameState == gs.(isActive := false, endTime := Some(now))
      && (o.effects == [] <==> gs.players == [])
      && (gs.players != [] ==> o.effects == [Broadcast(GameOver(ViewOfPlayer(GetWinner(gs).value)))])
  {
  }

  /**
   * A submission is refused, in this order, when the game has not started,
   * when its time is up (the game then stays open), when the normalised
   * domain is not ranked, and when it was already entered; a refusal
   * answers the sender alone and changes nothing.
   */
  lemma SubmitRefusals(logic: GameLogic, gs: GameState, id: string, raw: string, now: int, formula: int)
    ensures var o := Step(logic, gs, id, SubmitDomain(raw), now, formula);
      var key := Normalize(raw);
      && (!gs.isActive ==> o == Refuse(gs, GameNotStarted))
      && (gs.isActive && IsGameOver(gs, now) ==> o == Refuse(gs, GameIsOver))
      && (gs.isActive && !IsGameOver(gs, now) && key !in logic.domainRankings ==>
            o == Refuse(gs, InvalidDomain))
      && ((gs.isActive && !IsGameOver(gs, now) && key in logic.domainRankings
           && DomainUsed(gs.enteredDomains, key)) ==> o == Refuse(gs, DomainAlreadyUsed))
  {
    NormalizeIdempotent(raw);
  }

  /**
   * An accepted submission appends exactly one entry, crediting the sender,
   * adds the score to the sender alone, and broadcasts the update naming the
   * entry; the game stays open.
   */
  lemma SubmitAccepted(logic: GameLogic, gs: GameState, id: string, raw: string, now: int, formula: int)
    requires gs.isActive && !IsGameOver(gs, now)
    requires Normalize(raw) in logic.domainRankings && !DomainUsed(gs.enteredDomains, Normalize(raw))
    requires HasPlayer(gs.players, id)
    ensures var o := Step(logic, gs, id, SubmitDomain(raw), now, formula);
      var rank := logic.domainRankings[Normalize(raw)];
      var entry := DomainEntry(Normalize(raw), rank, id);
      && !o.aborted
      && o.gameState.enteredDomains == gs.enteredDomains + [entry]
      && |o.gameState.players| == |gs.players|
      && (forall i :: 0 <= i < |gs.players| ==>
            o.gameState.players[i] == if gs.players[i].websocketId == id
              then gs.players[i].(score := gs.players[i].score + CalculateScore(rank, formula))
              else gs.players[i])
      && o.gameState.isActive && o.gameState.startTime == gs.startTime && o.gameState.endTime == gs.endTime
      && o.effects == [Broadcast(FormatGameUpdate(o.gameState, now, Some(entry)))]
  {
    NormalizeIdempotent(raw);
  }

  /** A submission from a connection without a player entry drops the connection. */
  lemma SubmitWithoutPlayer(logic: GameLogic, gs: GameState, id: string, raw: string, now: int, formula: int)
    requires gs.isActive && !IsGameOver(gs, now)
    requires Normalize(raw) in logic.domainRankings && !DomainUsed(gs.enteredDomains, Normalize(raw))
    requires !HasPlayer(gs.players, id)
    ensures Step(logic, gs, id, SubmitDomain(raw), now, formula) == Outcome(gs, [], true)
  {
    NormalizeIdempotent(raw);
  }

  /**
   * Every update a frame sends reports between 1 and 60 seconds left. The
   * other senders of updates are AcceptConnection and ConnectionClosed, so
   * the wrapped time of an ended game reaches players only through those
   * join and leave broadcasts.
   */
  lemma StepUpdatesInRange(logic: GameLogic, gs: GameState, id: string, cmd: Command, now: int, formula: int)
    requires gs.startTime.Some? ==> gs.startTime.value <= now
    ensures forall e :: e in Step(logic, gs, id, cmd, now, formula).effects && e.msg.GameUpdate? ==>
      0 < e.msg.gameState.timeRemaining <= GameDuration
  {
    var o := Step(logic, gs, id, cmd, now, formula);
    match cmd
    case StartGame =>
      var started := Start(gs, now);
      assert o == CloseIfOver(started, now);
    case SubmitDomain(raw) =>
      var v := Submit(logic, gs, id, raw, now, formula);
      if v.Accepted? {
        UpdateOfRunningGame(v.scored, now, Some(v.entry));
        var u := FormatGameUpdate(v.scored, now, Some(v.entry));
        assert o == CloseIfOver(Outcome(v.scored, [Broadcast(u)], false), now);
      }
    case OtherCommand(_) =>
  }

  /** An update of a running game within its duration reports between 1 and 60 seconds. */
  lemma UpdateOfRunningGame(gs: GameState, now: int, latest: Option<DomainEntry>)
    requires gs.startTime.Some? ==> gs.startTime.value <= now
    requires !IsGameOver(gs, now)
    ensures 0 < FormatGameUpdate(gs, now, latest).gameState.timeRemaining <= GameDuration
  {
  }

  lemma AddScoreKeepsIds(ps: seq<Player>, id: string, points: int)
    ensures |AddScore(ps, id, points)| == |ps|
    ensures forall i :: 0 <= i < |ps| ==> AddScore(ps, id, points)[i].websocketId == ps[i].websocketId
  {
  }

  /**
   * Every frame keeps a room well formed: player ids stay distinct and no
   * domain enters the log twice.
   */
  lemma StepKeepsWellFormed(logic: GameLogic, code: string, room: Room, id: string, cmd: Command, now: int, formula: int)
    requires RoomWellFormed(code, room)
    ensures RoomWellFormed(code, room.(gameState := Step(logic, room.gameState, id, cmd, now, formula).gameState))
  {
    var gs := room.gameState;
    if cmd.SubmitDomain? {
      var key := Normalize(cmd.domain);
      AddScoreKeepsIds(gs.players, id, 0);
      forall points: int ensures DistinctIds(AddScore(gs.players, id, points)) {
        AddScoreKeepsIds(gs.players, id, points);
      }
      var entries := gs.enteredDomains + [DomainEntry(key, 0, id)];
      if !DomainUsed(gs.enteredDomains, key) {
        forall r: int ensures DistinctDomains(gs.enteredDomains + [DomainEntry(key, r, id)]) {
          var es := gs.enteredDomains + [DomainEntry(key, r, id)];
          forall i, j | 0 <= i < j < |es| ensures es[i].domain != es[j].domain {
            if j == |es| - 1 {
              assert es[i] == gs.enteredDomains[i];
            }
          }
        }
      }
    }
  }

  /**
   * The receive-loop body for one frame from connection `id` on room
   * `roomCode`, acting on the registry in place. `closed` is the loop
   * ending because the handler raised; the connection is then dropped.
   */
  method ReceiveFrame(manager: WebSocketManager, logic: GameLogic, roomCode: string, id: string,
                      cmd: Command, now: int, formula: int)
    returns (effects: seq<Effect>, closed: bool)
    requires manager.Valid()
    modifies manager
    ensures manager.Valid()
    ensures roomCode !in old(manager.rooms) ==>
      && effects == [Reply(ErrorMessage(RoomNotFound))] && !closed
      && manager.rooms == old(manager.rooms) && manager.activeConnections == old(manager.activeConnections)
    ensures roomCode in old(manager.rooms) ==>
      var room := old(manager.rooms)[roomCode];
      var o := Step(logic, room.gameState, id, cmd, now, formula);
      && closed == o.aborted
      && (o.aborted ==>
            && effects == []
            && manager.rooms == AfterDisconnect(old(manager.rooms), id)
            && manager.activeConnections == old(manager.activeConnections) - {id})
      && (!o.aborted ==>
            && effects == o.effects
            && manager.rooms == old(manager.rooms)[roomCode := room.(gameState := o.gameState)]
            && manager.activeConnections == old(manager.activeConnections))
  {
    var found := manager.GetRoom(roomCode);
    if found.None? {
      return [Reply(ErrorMessage(RoomNotFound))], false;
    }
    var room := found.value;
    ghost var o := Step(logic, room.gameState, id, cmd, now, formula);
    assert old(manager.rooms)[roomCode := room.(gameState := room.gameState)] == manager.rooms;
    var gs := room.gameState;
    effects := [];
    closed := false;
    ghost var handled: Outcome;
    match cmd {
      case StartGame =>
        if !gs.isActive {
          gs := gs.(isActive := true);
          gs := gs.(startTime := Some(now));
          effects := effects + [Broadcast(FormatGameUpdate(gs, now, None))];
        }
        handled := Start(room.gameState, now);
      case SubmitDomain(raw) =>
        ghost var verdict := Submit(logic, gs, id, raw, now, formula);
        if !gs.isActive {
          assert o == Refuse(gs, GameNotStarted);
          return [Reply(ErrorMessage(GameNotStarted))], false;
        }
        if IsGameOver(gs, now) {
          assert o == Refuse(gs, GameIsOver);
          return [Reply(ErrorMessage(GameIsOver))], false;
        }
        var domain := Normalize(raw);
        var (valid, rank) := logic.ValidateDomain(domain);
        if !valid {
          assert o == Refuse(gs, InvalidDomain);
          return [Reply(ErrorMessage(InvalidDomain))], false;
        }
        if DomainUsed(gs.enteredDomains, domain) {
          assert o == Refuse(gs, DomainAlreadyUsed);
          return [Reply(ErrorMessage(DomainAlreadyUsed))], false;
        }
        var points := CalculateScore(rank.value, formula);
        if !HasPlayer(gs.players, id) {
          assert o.aborted;
          manager.Disconnect(id);
          return [], true;
        }
        gs := gs.(players := AddScore(gs.players, id, points));
        var entry := DomainEntry(domain, rank.value, id);
        gs := gs.(enteredDomains := gs.enteredDomains + [entry]);
        effects := effects + [Broadcast(FormatGameUpdate(gs, now, Some(entry)))];
        assert verdict == Accepted(gs, entry);
        handled := Outcome(gs, effects, false);
      case OtherCommand(_) =>
        handled := Outcome(gs, [], false);
    }
    assert handled == Outcome(gs, effects, false);
    if IsGameOver(gs, now) {
      var winner := GetWinner(gs);
      if winner.Some? {
        effects := effects + [Broadcast(GameOver(ViewOfPlayer(winner.value)))];
      }
      gs := gs.(isActive := false);
      gs := gs.(endTime := Some(now));
    }
    assert o == CloseIfOver(handled, now);
    assert o.gameState == gs && o.effects == effects && !o.aborted;
    var updated := room.(gameState := gs);
    assert RoomWellFormed(roomCode, updated) by {
      StepKeepsWellFormed(logic, roomCode, room, id, cmd, now, formula);
    }
    manager.rooms := manager.rooms[roomCode := updated];
  }

  /**
   * A new connection: registration, then the room's current state to every
   * active player of the room.
   */
  method AcceptConnection(manager: WebSocketManager, roomCode: string, username: string, stamp: string, now: int)
    returns (id: string, effects: seq<Effect>)
    requires manager.Valid()
    modifies manager
    ensures manager.Valid()
    ensures id == WebSocketId(roomCode, username, stamp)
    ensures manager.activeConnections == old(manager.activeConnections) + {id}
    ensures manager.rooms.Keys == old(manager.rooms).Keys + {roomCode}
    ensures HasPlayer(manager.rooms[roomCode].gameState.players, id)
    ensures forall c :: c in old(manager.rooms) && c != roomCode ==> manager.rooms[c] == old(manager.rooms)[c]
    ensures var base := if roomCode in old(manager.rooms) then old(manager.rooms)[roomCode] else FreshRoom(roomCode, now);
      exists color ::
        && color in Palette
        && (FreeColors(Palette, UsedColors(base.gameState.players)) != [] ==>
              color !in UsedColors(base.gameState.players))
        && manager.rooms[roomCode] == Joined(base, Player(username, color, 0, id), now)
    ensures effects == [Broadcast(FormatGameUpdate(manager.rooms[roomCode].gameState, now, None))]
  {
    id := manager.Connect(roomCode, username, stamp, now);
    var found := manager.GetRoom(roomCode);
    effects := [];
    if found.Some? {
      effects := [Broadcast(FormatGameUpdate(found.value.gameState, now, None))];
    }
  }

  /** A closed connection: it leaves every room, and its room hears the new state. */
  method ConnectionClosed(manager: WebSocketManager, roomCode: string, id: string, now: int)
    returns (effects: seq<Effect>)
    requires manager.Valid()
    modifies manager
    ensures manager.Valid()
    ensures manager.activeConnections == old(manager.activeConnections) - {id}
    ensures manager.rooms == AfterDisconnect(old(manager.rooms), id)
    ensures roomCode !in manager.rooms ==> effects == []
    ensures roomCode in manager.rooms ==>
      effects == [Broadcast(FormatGameUpdate(manager.rooms[roomCode].gameState, now, None))]
  {
    manager.Disconnect(id);
    var found := manager.GetRoom(roomCode);
    effects := [];
    if found.Some? {
      effects := [Broadcast(FormatGameUpdate(found.value.gameState, now, None))];
    }
  }
}
