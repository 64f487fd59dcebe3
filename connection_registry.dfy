/**
 * The server's registry of connections and rooms
 * (backend/app/websocket_manager.py). A connection handle is I/O; only its
 * id is kept, so `active_connections` is the set of live ids. `rooms` maps
 * a room code to its room, and a room's players are kept in insertion order.
 * Times are integer seconds; random draws are parameters or a choice.
 */
module ConnectionRegistry {
  import opened Wrappers
  import opened ServerModels

  /** `COLORS`, the player colour palette, in order. */
  const Palette: seq<string> := [
    "#FF6B6B", "#4ECDC4", "#45B7D1", "#96CEB4",
    "#FFEEAD", "#D4A5A5", "#9B59B6", "#3498DB",
    "#E67E22", "#2ECC71"]

  /** `timedelta(minutes=10)`: a room idle for longer than this is swept. */
  const InactivityLimit := 600

  /** The colours already taken in a room. */
  function UsedColors(ps: seq<Player>): set<string> {
    set p | p in ps :: p.color
  }

  /** `[c for c in colors if c not in used]`, in palette order. */
  function FreeColors(colors: seq<string>, used: set<string>): (free: seq<string>)
    ensures forall c :: c in free <==> c in colors && c !in used
  {
    if colors == [] then []
    else if colors[0] in used then FreeColors(colors[1..], used)
    else [colors[0]] + FreeColors(colors[1..], used)
  }

  /** A room as first created for a code, before the join stamps its activity. */
  function FreshRoom(code: string, now: int): Room {
    Room(code, NewGameState(code), now)
  }

  /** The room after `p` joins it at time `now`. */
  function Joined(room: Room, p: Player, now: int): Room {
    room.(gameState := room.gameState.(players := PutPlayer(room.gameState.players, p)),
          lastActivity := now)
  }

  /** The room with the player under `id`, if any, removed. */
  function WithoutPlayer(room: Room, id: string): Room {
    room.(gameState := room.gameState.(players := RemovePlayer(room.gameState.players, id)))
  }

  /**
   * The ids of the players, in room order, whose connection is live: the
   * recipients of a broadcast to a room holding `ps`.
   */
  function ActiveIds(ps: seq<Player>, active: set<string>): (ids: seq<string>)
    ensures |ids| <= |ps|
    ensures forall x :: x in ids <==> x in active && HasPlayer(ps, x)
    ensures DistinctIds(ps) ==> forall i, j :: 0 <= i < j < |ids| ==> ids[i] != ids[j]
  {
    if ps == [] then []
    else
      var init := ps[..|ps| - 1];
      var id := ps[|ps| - 1].websocketId;
      assert forall x :: HasPlayer(ps, x) <==> HasPlayer(init, x) || x == id by {
        forall x | HasPlayer(init, x) ensures HasPlayer(ps, x) {
          var k :| 0 <= k < |init| && init[k].websocketId == x;
          assert ps[k] == init[k];
        }
      }
      assert DistinctIds(ps) ==> !HasPlayer(init, id);
      ActiveIds(init, active) + if id in active then [id] else []
  }

  /** Every room after `disconnect(id)`: the same rooms, none holding `id`. */
  function AfterDisconnect(rooms: map<string, Room>, id: string): (after: map<string, Room>)
    ensures after.Keys == rooms.Keys
    ensures forall c :: c in after ==> !HasPlayer(after[c].gameState.players, id)
  {
    map c | c in rooms :: WithoutPlayer(rooms[c], id)
  }

  /** Disconnecting an id twice is disconnecting it once. */
  lemma AfterDisconnectIdempotent(rooms: map<string, Room>, id: string)
    ensures AfterDisconnect(AfterDisconnect(rooms, id), id) == AfterDisconnect(rooms, id)
  {
    var once := AfterDisconnect(rooms, id);
    var twice := AfterDisconnect(once, id);
    forall c | c in once
      ensures twice[c] == once[c]
    {
      RemoveAbsentPlayer(once[c].gameState.players, id);
    }
    assert twice.Keys == once.Keys;
  }

  /** Joining keeps a room well formed. */
  lemma JoinedWellFormed(code: string, room: Room, p: Player, now: int)
    requires RoomWellFormed(code, room)
    ensures RoomWellFormed(code, Joined(room, p, now))
    ensures HasPlayer(Joined(room, p, now).gameState.players, p.websocketId)
  {
    PutPlayerKeepsKeysDistinct(room.gameState.players, p);
  }

  /** Removing a player keeps a room well formed. */
  lemma WithoutPlayerWellFormed(code: string, room: Room, id: string)
    requires RoomWellFormed(code, room)
    ensures RoomWellFormed(code, WithoutPlayer(room, id))
  {
  }

  class WebSocketManager {
    /** The ids of `active_connections`. */
    var activeConnections: set<string>
    var rooms: map<string, Room>

    /** Every stored room is well formed under its own code. */
    predicate Valid()
      reads this
    {
      forall c :: c in rooms ==> RoomWellFormed(c, rooms[c])
    }

    constructor ()
      ensures activeConnections == {} && rooms == map[]
      ensures Valid()
    {
      activeConnections := {};
      rooms := map[];
    }

    /**
     * `generate_room_code`: `draws` are the successive random codes; the
     * first one not naming a room is returned. `None` stands for a run of
     * draws that never found a free code (the source keeps drawing).
     */
    method GenerateRoomCode(draws: seq<string>) returns (code: Option<string>)
      requires forall i :: 0 <= i < |draws| ==> IsRoomCode(draws[i])
      ensures code.Some? ==> IsRoomCode(code.value) && code.value !in rooms && code.value in draws
      ensures code.Some? ==>
        exists i :: 0 <= i < |draws| && draws[i] == code.value && forall j :: 0 <= j < i ==> draws[j] in rooms
      ensures code.None? <==> forall i :: 0 <= i < |draws| ==> draws[i] in rooms
    {
      for i := 0 to |draws|
        invariant forall j :: 0 <= j < i ==> draws[j] in rooms
      {
        if draws[i] !in rooms {
          return Some(draws[i]);
        }
      }
      return None;
    }

    /**
     * `random.choice(available_colors if available_colors else COLORS)`:
     * any palette colour, and an unused one whenever one is left.
     */
    method PickColor(ps: seq<Player>) returns (color: string)
      ensures color in Palette
      ensures FreeColors(Palette, UsedColors(ps)) != [] ==> color !in UsedColors(ps)
    {
      var free := FreeColors(Palette, UsedColors(ps));
      var candidates := if free != [] then free else Palette;
      assert candidates[0] in candidates;
      color :| color in candidates;
    }

    /**
     * The registration part of `connect`: the id is built from the room
     * code, username and `stamp` (the connection timestamp), marked active,
     * the room is created on first join and reused otherwise, and the player
     * joins it with score 0 and a colour from the palette.
     */
    method Connect(roomCode: string, username: string, stamp: string, now: int) returns (id: string)
      requires Valid()
      modifies this
      ensures Valid()
      ensures id == WebSocketId(roomCode, username, stamp)
      ensures activeConnections == old(activeConnections) + {id}
      ensures rooms.Keys == old(rooms).Keys + {roomCode}
      ensures HasPlayer(rooms[roomCode].gameState.players, id)
      ensures forall c :: c in old(rooms) && c != roomCode ==> rooms[c] == old(rooms)[c]
      ensures var base := if roomCode in old(rooms) then old(rooms)[roomCode] else FreshRoom(roomCode, now);
        exists color ::
          && color in Palette
          && (FreeColors(Palette, UsedColors(base.gameState.players)) != [] ==>
                color !in UsedColors(base.gameState.players))
          && rooms[roomCode] == Joined(base, Player(username, color, 0, id), now)
    {
      id := WebSocketId(roomCode, username, stamp);
      activeConnections := activeConnections + {id};
      if roomCode !in rooms {
        rooms := rooms[roomCode := FreshRoom(roomCode, now)];
      }
      var base := rooms[roomCode];
      assert base == if roomCode in old(rooms) then old(rooms)[roomCode] else FreshRoom(roomCode, now);
      assert RoomWellFormed(roomCode, base);
      var color := PickColor(base.gameState.players);
      var joined := Joined(base, Player(username, color, 0, id), now);
      JoinedWellFormed(roomCode, base, Player(username, color, 0, id), now);
      rooms := rooms[roomCode := joined];
      assert rooms[roomCode] == joined;
    }

    /** `disconnect`: the id leaves the active set and every room's players; rooms stay. */
    method Disconnect(id: string)
      modifies this
      ensures activeConnections == old(activeConnections) - {id}
      ensures rooms == AfterDisconnect(old(rooms), id)
      ensures old(Valid()) ==> Valid()
    {
      activeConnections := activeConnections - {id};
      var todo := rooms.Keys;
      while todo != {}
        invariant activeConnections == old(activeConnections) - {id}
        invariant todo <= rooms.Keys && rooms.Keys == old(rooms).Keys
        invariant forall c :: c in rooms ==>
          rooms[c] == if c in todo then old(rooms)[c] else WithoutPlayer(old(rooms)[c], id)
        decreases todo
      {
        var c :| c in todo;
        if HasPlayer(rooms[c].gameState.players, id) {
          rooms := rooms[c := WithoutPlayer(rooms[c], id)];
        } else {
          RemoveAbsentPlayer(rooms[c].gameState.players, id);
        }
        todo := todo - {c};
      }
      if old(Valid()) {
        forall c | c in rooms ensures RoomWellFormed(c, rooms[c]) {
          WithoutPlayerWellFormed(c, old(rooms)[c], id);
        }
      }
    }

    /** `clean_inactive_rooms`: exactly the rooms idle for more than ten minutes go. */
    method CleanInactiveRooms(now: int)
      modifies this
      ensures activeConnections == old(activeConnections)
      ensures forall c :: c in rooms <==> c in old(rooms) && now - old(rooms)[c].lastActivity <= InactivityLimit
      ensures forall c :: c in rooms ==> rooms[c] == old(rooms)[c]
      ensures old(Valid()) ==> Valid()
    {
      var inactive := set c | c in rooms && now - rooms[c].lastActivity > InactivityLimit;
      var todo := inactive;
      while todo != {}
        invariant activeConnections == old(activeConnections)
        invariant todo <= inactive
        invariant forall c :: c in rooms <==> c in old(rooms) && (c !in inactive || c in todo)
        invariant forall c :: c in rooms ==> rooms[c] == old(rooms)[c]
        decreases todo
      {
        var c :| c in todo;
        rooms := rooms - {c};
        todo := todo - {c};
      }
    }

    /** The ids `broadcast_to_room` sends to: the room's active players, in player order. */
    method BroadcastRecipients(roomCode: string) returns (ids: seq<string>)
      ensures roomCode !in rooms ==> ids == []
      ensures roomCode in rooms ==> ids == ActiveIds(rooms[roomCode].gameState.players, activeConnections)
      ensures roomCode in rooms ==> forall x :: x in ids <==>
        x in activeConnections && HasPlayer(rooms[roomCode].gameState.players, x)
      ensures Valid() && roomCode in rooms ==> forall i, j :: 0 <= i < j < |ids| ==> ids[i] != ids[j]
    {
      ids := [];
      if roomCode in rooms {
        var ps := rooms[roomCode].gameState.players;
        for i := 0 to |ps|
          invariant ids == ActiveIds(ps[..i], activeConnections)
        {
          assert ps[..i + 1][..i] == ps[..i];
          if ps[i].websocketId in activeConnections {
            ids := ids + [ps[i].websocketId];
          }
        }
        assert ps[..|ps|] == ps;
      }
    }

    /** `get_room`: the room under the code, if there is one. */
    function GetRoom(roomCode: string): (r: Option<Room>)
      reads this
      ensures r.Some? <==> roomCode in rooms
      ensures r.Some? ==> r.value == rooms[roomCode]
    {
      if roomCode in rooms then Some(rooms[roomCode]) else None
    }
  }

  /** A joining player gets a colour nobody in the room has while fewer than ten play. */
  lemma FreeColorWhileRoomLeft(ps: seq<Player>)
    requires |ps| < |Palette|
    ensures FreeColors(Palette, UsedColors(ps)) != []
  {
    UsedColorsBound(ps);
    if FreeColors(Palette, UsedColors(ps)) == [] {
      PaletteDistinct();
      DistinctMembersBound(Palette, UsedColors(ps));
    }
  }

  /** A room has no more colours in use than players. */
  lemma {:induction false} UsedColorsBound(ps: seq<Player>)
    ensures |UsedColors(ps)| <= |ps|
  {
    if ps != [] {
      UsedColorsBound(ps[1..]);
      assert UsedColors(ps) == {ps[0].color} + UsedColors(ps[1..]);
    }
  }

  /** A set holding every element of a repetition-free sequence is at least as large. */
  lemma {:induction false} DistinctMembersBound(xs: seq<string>, u: set<string>)
    requires forall i, j :: 0 <= i < j < |xs| ==> xs[i] != xs[j]
    requires forall i :: 0 <= i < |xs| ==> xs[i] in u
    ensures |xs| <= |u|
  {
    if xs != [] {
      DistinctMembersBound(xs[1..], u - {xs[0]});
    }
  }

  /** The ten palette colours are distinct. */
  lemma PaletteDistinct()
    ensures forall i, j :: 0 <= i < j < |Palette| ==> Palette[i] != Palette[j]
  {
  }
}
