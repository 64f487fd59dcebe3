/**
 * The game room view (frontend/src/components/GameRoom.tsx): a fold of
 * inbound frames over (gameState, error, winner), and the user intents that
 * call the session channel.
 */
module RoomView {
  import opened Wrappers
  import opened ClientTypes
  import opened Text
  import Session

  datatype Winner = Winner(nickname: Option<string>, score: int)

  /** The three facts the view tracks from inbound frames. */
  datatype View = View(gameState: GameState, error: string, winner: Option<Winner>)

  const ConnectFailure := "Failed to connect to game server"

  /** The snapshot shown before any update arrives. */
  function InitialGameState(): (gs: GameState)
    ensures !gs.isActive && gs.timeRemaining == 60
    ensures gs.players == [] && gs.enteredDomains == [] && gs.latestDomain == None
  {
    GameState(false, 60, [], [], None)
  }

  function InitialView(): View {
    View(InitialGameState(), "", None)
  }

  /**
   * The message handler the view registers: one frame, one step. An update
   * replaces the game state and clears the error, an error frame sets the
   * error, a `game_over` sets the winner; nothing else changes.
   */
  function Fold(v: View, m: Inbound): (r: View)
    ensures m.GameUpdate? ==> r.gameState == m.gameState && r.error == ""
    ensures m.ErrorMessage? ==> r.error == m.message
    ensures m.GameOver? ==> r.winner == Some(Winner(m.winner.nickname, m.winner.score))
    ensures !m.GameUpdate? ==> r.gameState == v.gameState
    ensures !m.GameOver? ==> r.winner == v.winner
    ensures m.GameOver? ==> r.error == v.error
  {
    match m
    case GameUpdate(gs) => View(gs, "", v.winner)
    case ErrorMessage(text) => v.(error := text)
    case GameOver(w) => v.(winner := Some(Winner(w.nickname, w.score)))
  }

  /**
   * Frames folded oldest first. Each of the three facts is the initial one
   * or comes from some frame of the stream (the error may also be the
   * empty string an update leaves).
   */
  function FoldAll(v: View, ms: seq<Inbound>): (r: View)
    ensures r.gameState == v.gameState ||
      exists j :: 0 <= j < |ms| && ms[j].GameUpdate? && r.gameState == ms[j].gameState
    ensures r.error == v.error || r.error == "" ||
      exists j :: 0 <= j < |ms| && ms[j].ErrorMessage? && r.error == ms[j].message
    ensures r.winner == v.winner ||
      exists j :: 0 <= j < |ms| && ms[j].GameOver? && r.winner == Some(Winner(ms[j].winner.nickname, ms[j].winner.score))
  {
    if ms == [] then v
    else
      var init := ms[..|ms| - 1];
      assert forall j :: 0 <= j < |init| ==> init[j] == ms[j];
      Fold(FoldAll(v, init), ms[|ms| - 1])
  }

  /** Delivering one frame twice (two registrations of the handler) is delivering it once. */
  lemma FoldIdempotent(v: View, m: Inbound)
    ensures Fold(Fold(v, m), m) == Fold(v, m)
  {
  }

  /** Frames without a `game_update` never touch the game state. */
  lemma {:induction false} NoUpdateKeepsGameState(v: View, ms: seq<Inbound>)
    requires forall j :: 0 <= j < |ms| ==> !ms[j].GameUpdate?
    ensures FoldAll(v, ms).gameState == v.gameState
  {
    if ms != [] {
      NoUpdateKeepsGameState(v, ms[..|ms| - 1]);
    }
  }

  /**
   * The game state after a stream of frames is exactly the payload of the
   * last `game_update`, with no merging; the error is empty unless an
   * `error` frame came after it.
   */
  lemma {:induction false} LastUpdateWins(v: View, ms: seq<Inbound>, i: nat)
    requires i < |ms| && ms[i].GameUpdate?
    requires forall j :: i < j < |ms| ==> !ms[j].GameUpdate?
    ensures FoldAll(v, ms).gameState == ms[i].gameState
    ensures (forall j :: i < j < |ms| ==> !ms[j].ErrorMessage?) ==> FoldAll(v, ms).error == ""
  {
    var init := ms[..|ms| - 1];
    if i < |ms| - 1 {
      LastUpdateWins(v, init, i);
    }
  }

  /** Without a `game_over` frame the winner stays what it was, set or not. */
  lemma {:induction false} WinnerSticky(v: View, ms: seq<Inbound>)
    requires forall j :: 0 <= j < |ms| ==> !ms[j].GameOver?
    ensures FoldAll(v, ms).winner == v.winner
  {
    if ms != [] {
      WinnerSticky(v, ms[..|ms| - 1]);
    }
  }

  /** After a `game_over`, the winner is that payload across any later updates and errors. */
  lemma {:induction false} WinnerFromLastGameOver(v: View, ms: seq<Inbound>, i: nat)
    requires i < |ms| && ms[i].GameOver?
    requires forall j :: i < j < |ms| ==> !ms[j].GameOver?
    ensures FoldAll(v, ms).winner == Some(Winner(ms[i].winner.nickname, ms[i].winner.score))
  {
    if i < |ms| - 1 {
      WinnerFromLastGameOver(v, ms[..|ms| - 1], i);
    }
  }

  /** The start button shows only before the game and with more than one player. */
  predicate ShowStartButton(gs: GameState) {
    !gs.isActive && |gs.players| > 1
  }

  class GameRoom {
    const channel: Session.GameWebSocket
    const roomCode: string
    const nickname: string
    var gameState: GameState
    var error: string
    /** The text in the domain input box. */
    var domain: string
    var winner: Option<Winner>

    function CurrentView(): View
      reads this
    {
      View(gameState, error, winner)
    }

    constructor (channel: Session.GameWebSocket, roomCode: string, nickname: string)
      ensures this.channel == channel && this.roomCode == roomCode && this.nickname == nickname
      ensures CurrentView() == InitialView() && domain == ""
    {
      this.channel := channel;
      this.roomCode := roomCode;
      this.nickname := nickname;
      gameState := InitialGameState();
      error := "";
      domain := "";
      winner := None;
    }

    /** First half of the mount effect: start connecting. */
    method BeginConnect(constructorThrows: bool) returns (attempt: Session.Socket?)
      modifies channel
      ensures channel.handlers == old(channel.handlers)
      ensures constructorThrows ==> attempt == null && channel.ws == old(channel.ws)
      ensures !constructorThrows ==>
        && attempt != null && fresh(attempt) && channel.ws == attempt
        && attempt.url == channel.baseUrl + Session.ConnectPath(roomCode, nickname)
        && attempt.readyState == Session.Connecting && attempt.sent == []
        && attempt.opening == Session.Pending
    {
      attempt := channel.Connect(roomCode, nickname, constructorThrows);
    }

    /**
     * Second half of the mount effect, once the connect promise has settled:
     * on success register handler `h` (and nothing that would ever remove it);
     * on failure show the connection error and register nothing.
     */
    method FinishConnect(attempt: Session.Socket?, h: Session.HandlerId)
      requires attempt != null ==> attempt.opening != Session.Pending
      modifies this, channel
      ensures channel.ws == old(channel.ws)
      ensures gameState == old(gameState) && winner == old(winner) && domain == old(domain)
      ensures attempt != null && attempt.opening == Session.Resolved ==>
        channel.handlers == old(channel.handlers) + [h] && error == old(error)
      ensures attempt == null || attempt.opening == Session.Rejected ==>
        channel.handlers == old(channel.handlers) && error == ConnectFailure
    {
      if attempt != null && attempt.opening == Session.Resolved {
        channel.AddMessageHandler(h);
      } else {
        error := ConnectFailure;
      }
    }

    /**
     * The cleanup the effect means to register: unsubscribe handler `h` and
     * disconnect. As written it is returned from inside the async function,
     * so it never runs.
     */
    method Teardown(h: Session.HandlerId)
      modifies channel, channel.ws
      ensures channel.handlers == Session.Without(old(channel.handlers), h) && channel.ws == null
      ensures old(channel.ws) != null ==>
        && old(channel.ws).readyState == Session.AfterClose(old(channel.ws.readyState))
        && old(channel.ws).sent == old(channel.ws.sent) && old(channel.ws).opening == old(channel.ws.opening)
    {
      channel.RemoveMessageHandler(h);
      channel.Disconnect();
    }

    /** The registered handler, run for one delivered frame. */
    method HandleMessage(m: Inbound)
      modifies this
      ensures CurrentView() == Fold(old(CurrentView()), m) && domain == old(domain)
      ensures m.GameUpdate? ==> gameState == m.gameState && error == "" && winner == old(winner)
      ensures m.ErrorMessage? ==> error == m.message && gameState == old(gameState) && winner == old(winner)
      ensures m.GameOver? ==>
        winner == Some(Winner(m.winner.nickname, m.winner.score))
        && gameState == old(gameState) && error == old(error)
    {
      match m
      case GameUpdate(gs) =>
        gameState := gs;
        error := "";
      case ErrorMessage(text) =>
        error := text;
      case GameOver(w) =>
        winner := Some(Winner(w.nickname, w.score));
    }

    /** The input box's change handler. */
    method SetDomain(text: string)
      modifies this
      ensures domain == text && CurrentView() == old(CurrentView())
    {
      domain := text;
    }

    method HandleStartGame()
      modifies channel.ws
      ensures channel.ws != null ==>
        channel.ws.sent == old(channel.ws.sent)
          + (if old(channel.ws.readyState) == Session.Open then [Outbound.StartGame] else [])
      ensures channel.ws != null ==>
        channel.ws.readyState == old(channel.ws.readyState) && channel.ws.opening == old(channel.ws.opening)
    {
      channel.StartGame();
    }

    /**
     * Submits the trimmed input and clears the box; blank input sends
     * nothing and stays in the box.
     */
    method HandleSubmitDomain()
      modifies this, channel.ws
      ensures CurrentView() == old(CurrentView())
      ensures AllSpace(old(domain)) ==>
        domain == old(domain) && (channel.ws != null ==> channel.ws.sent == old(channel.ws.sent))
      ensures !AllSpace(old(domain)) ==>
        && domain == ""
        && Trim(old(domain)) != ""
        && (channel.ws != null ==>
              channel.ws.sent == old(channel.ws.sent)
                + (if old(channel.ws.readyState) == Session.Open
                   then [Outbound.SubmitDomain(Trim(old(domain)))] else []))
      ensures channel.ws != null ==>
        channel.ws.readyState == old(channel.ws.readyState) && channel.ws.opening == old(channel.ws.opening)
    {
      TrimEmptyIffBlank(domain);
      if Trim(domain) != "" {
        channel.SubmitDomain(Trim(domain));
        domain := "";
      }
    }

    /** Acknowledges the outcome: clears the winner and asks for one new start. */
    method HandleNewGame()
      modifies this, channel.ws
      ensures winner == None && gameState == old(gameState) && error == old(error) && domain == old(domain)
      ensures channel.ws != null ==>
        channel.ws.sent == old(channel.ws.sent)
          + (if old(channel.ws.readyState) == Session.Open then [Outbound.StartGame] else [])
      ensures channel.ws != null ==>
        channel.ws.readyState == old(channel.ws.readyState) && channel.ws.opening == old(channel.ws.opening)
    {
      winner := None;
      channel.StartGame();
    }
  }

  /**
   * Leaving a room and joining another with the effect as written: the
   * first view's handler stays registered and its transport stays open, so
   * every later frame runs both views' handlers.
   */
  method RemountKeepsStaleSession() returns (handlers: seq<Session.HandlerId>, firstState: Session.ReadyState,
                                             deliveries: nat)
    ensures handlers == [1, 2] && firstState == Session.Open && deliveries == 2
  {
    var channel := new Session.GameWebSocket("ws://localhost:8000");
    var view := new GameRoom(channel, "AB12CD", "ann");
    var first := view.BeginConnect(false);
    channel.OnOpen(first);
    view.FinishConnect(first, 1);
    var next := new GameRoom(channel, "XY34ZW", "ann");
    var second := next.BeginConnect(false);
    channel.OnOpen(second);
    next.FinishConnect(second, 2);
    var ds := channel.OnMessage(ErrorMessage("Game not started"));
    handlers, firstState, deliveries := channel.handlers, first.readyState, |ds|;
  }

  /** The same with the teardown run on leaving: one handler, and the first transport closing. */
  method RemountWithTeardown() returns (handlers: seq<Session.HandlerId>, firstState: Session.ReadyState,
                                        deliveries: nat)
    ensures handlers == [2] && firstState == Session.Closing && deliveries == 1
  {
    var channel := new Session.GameWebSocket("ws://localhost:8000");
    var view := new GameRoom(channel, "AB12CD", "ann");
    var first := view.BeginConnect(false);
    channel.OnOpen(first);
    view.FinishConnect(first, 1);
    view.Teardown(1);
    var next := new GameRoom(channel, "XY34ZW", "ann");
    var second := next.BeginConnect(false);
    channel.OnOpen(second);
    next.FinishConnect(second, 2);
    var ds := channel.OnMessage(ErrorMessage("Game not started"));
    handlers, firstState, deliveries := channel.handlers, first.readyState, |ds|;
  }
}
