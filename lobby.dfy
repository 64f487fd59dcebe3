/**
 * The home page (frontend/src/app/page.tsx): nickname and room-code entry,
 * and the choice of the active room that mounts the game room view.
 */
module Lobby {
  import opened Wrappers
  import opened Text
  import ServerModels

  datatype ActiveRoom = ActiveRoom(code: string, nickname: string)

  const NeedNickname := "Please enter a nickname"
  const NeedRoomCode := "Please enter a room code"
  const CreateFailed := "Failed to create room"

  /** A generated room code survives the upper-casing of the room-code box. */
  lemma {:induction false} GeneratedCodeSurvivesTyping(code: string)
    requires ServerModels.IsRoomCode(code)
    ensures Upper(code) == code
  {
    forall i | 0 <= i < |code| ensures Upper(code)[i] == code[i] {
      assert ServerModels.IsRoomCodeChar(code[i]);
    }
  }

  /** Upper-casing what was typed twice is upper-casing it once. */
  lemma UpperIdempotent(s: string)
    ensures Upper(Upper(s)) == Upper(s)
  {
  }

  class Home {
    var nickname: string
    var roomCode: string
    var activeRoom: Option<ActiveRoom>
    var error: string

    constructor ()
      ensures nickname == "" && roomCode == "" && activeRoom == None && error == ""
    {
      nickname := "";
      roomCode := "";
      activeRoom := None;
      error := "";
    }

    method SetNickname(text: string)
      modifies this
      ensures nickname == text && roomCode == old(roomCode)
      ensures activeRoom == old(activeRoom) && error == old(error)
    {
      nickname := text;
    }

    /** The room-code box stores what was typed, upper-cased. */
    method SetRoomCode(text: string)
      modifies this
      ensures roomCode == Upper(text) && nickname == old(nickname)
      ensures activeRoom == old(activeRoom) && error == old(error)
    {
      roomCode := Upper(text);
    }

    /**
     * The nickname is checked before the room code; with both present the
     * room becomes active and an earlier error stays on display.
     */
    method HandleJoinRoom()
      modifies this
      ensures nickname == old(nickname) && roomCode == old(roomCode)
      ensures nickname == "" ==> error == NeedNickname && activeRoom == old(activeRoom)
      ensures nickname != "" && roomCode == "" ==> error == NeedRoomCode && activeRoom == old(activeRoom)
      ensures nickname != "" && roomCode != "" ==>
        activeRoom == Some(ActiveRoom(roomCode, nickname)) && error == old(error)
    {
      if nickname == "" {
        error := NeedNickname;
        return;
      }
      if roomCode == "" {
        error := NeedRoomCode;
        return;
      }
      activeRoom := Some(ActiveRoom(roomCode, nickname));
    }

    /**
     * `handleCreateRoom`; `generated` is the code the room-generation request
     * returned, or `None` when the request failed.
     */
    method HandleCreateRoom(generated: Option<string>)
      modifies this
      ensures nickname == old(nickname) && roomCode == old(roomCode)
      ensures nickname == "" ==> error == NeedNickname && activeRoom == old(activeRoom)
      ensures nickname != "" && generated.Some? ==>
        activeRoom == Some(ActiveRoom(generated.value, nickname)) && error == old(error)
      ensures nickname != "" && generated.None? ==> error == CreateFailed && activeRoom == old(activeRoom)
    {
      if nickname == "" {
        error := NeedNickname;
        return;
      }
      match generated
      case Some(code) =>
        activeRoom := Some(ActiveRoom(code, nickname));
      case None =>
        error := CreateFailed;
    }

    /** The game room's exit button. */
    method Exit()
      modifies this
      ensures activeRoom == None
      ensures nickname == old(nickname) && roomCode == old(roomCode) && error == old(error)
    {
      activeRoom := None;
    }
  }
}
