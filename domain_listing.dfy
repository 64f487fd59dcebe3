/**
 * The list of entered domains (frontend/src/components/DomainList.tsx): one
 * row per entry in stored order, coloured by the player the entry's id
 * names.
 */
module DomainListing {
  import opened Wrappers
  import opened ClientTypes
  import opened Text
  import ServerModels

  const DefaultColor := "#000000"

  /**
   * `playerId.split("_")[1]`; `None` stands for `undefined` when there is no
   * `_`. The field is the text between the first `_` and the next one, or
   * the end.
   */
  function SecondField(playerId: string): (r: Option<string>)
    ensures r.Some? <==> '_' in playerId
    ensures r.Some? ==> '_' !in r.value
    ensures r.Some? ==> exists head, tail ::
      && '_' !in head && (tail == [] || tail[0] == '_')
      && playerId == head + ['_'] + r.value + tail
  {
    var parts := Split(playerId, '_');
    if |parts| > 1 then
      var tail := if |parts| > 2 then ['_'] + Join(parts[2..], '_') else [];
      assert Join(parts[1..], '_') == parts[1] + tail;
      var head := parts[0];
      assert '_' !in head && (tail == [] || tail[0] == '_') && playerId == head + ['_'] + parts[1] + tail;
      Some(parts[1])
    else
      assert parts == [playerId];
      None
  }

  /**
   * `players.find((p) => p.nickname === name)`, as an index; `undefined`
   * equals `undefined`, so a missing field matches a missing nickname.
   */
  function FindByNickname(players: seq<Player>, name: Option<string>): (r: Option<nat>)
    ensures r.Some? ==>
      && r.value < |players|
      && players[r.value].nickname == name
      && forall j :: 0 <= j < r.value ==> players[j].nickname != name
    ensures r.None? ==> forall j :: 0 <= j < |players| ==> players[j].nickname != name
  {
    if players == [] then None
    else if players[0].nickname == name then Some(0)
    else
      match FindByNickname(players[1..], name)
      case None => None
      case Some(k) => Some(k + 1)
  }

  /**
   * `player?.color || "#000000"`: a found player's colour unless it is
   * empty. The colour is never empty, and it is either the default or the
   * colour of a player named by the id's second field.
   */
  function GetPlayerColor(players: seq<Player>, playerId: string): (c: string)
    ensures c != ""
    ensures c == DefaultColor ||
      exists i :: 0 <= i < |players| && players[i].color == c && players[i].nickname == SecondField(playerId)
  {
    match FindByNickname(players, SecondField(playerId))
    case None => DefaultColor
    case Some(i) => if players[i].color != "" then players[i].color else DefaultColor
  }

  /** The colour is that of the first player named by the id's second field, unless empty. */
  lemma ColorOfFirstMatch(players: seq<Player>, playerId: string, i: nat)
    requires i < |players| && players[i].nickname == SecondField(playerId)
    requires forall j :: 0 <= j < i ==> players[j].nickname != SecondField(playerId)
    ensures GetPlayerColor(players, playerId) == if players[i].color != "" then players[i].color else DefaultColor
  {
    assert FindByNickname(players, SecondField(playerId)).Some?;
  }

  /** With no player so named the colour is the default. */
  lemma NoMatchGetsDefault(players: seq<Player>, playerId: string)
    requires forall j :: 0 <= j < |players| ==> players[j].nickname != SecondField(playerId)
    ensures GetPlayerColor(players, playerId) == DefaultColor
  {
  }

  /**
   * An id without `_` has no second field, and gets the default colour when
   * every player has a nickname, as the client's type declares.
   */
  lemma NoUnderscoreGetsDefault(players: seq<Player>, playerId: string)
    requires '_' !in playerId
    requires forall j :: 0 <= j < |players| ==> players[j].nickname.Some?
    ensures SecondField(playerId) == None
    ensures GetPlayerColor(players, playerId) == DefaultColor
  {
    SplitWithoutSeparator(playerId, '_');
  }

  /**
   * For ids built as `room_username_timestamp`, the second field is the
   * username whenever room, username and timestamp have no `_`; the colour
   * is then that of the first player so named.
   */
  lemma SecondFieldOfServerId(room: string, username: string, stamp: string)
    requires '_' !in room && '_' !in username && '_' !in stamp
    ensures SecondField(ServerModels.WebSocketId(room, username, stamp)) == Some(username)
  {
    SplitJoin3(room, username, stamp, '_');
  }

  /** A username holding `_` is never recovered, whatever the room and timestamp. */
  lemma UnderscoreUsernameNotRecovered(room: string, username: string, stamp: string)
    requires '_' in username
    ensures SecondField(ServerModels.WebSocketId(room, username, stamp)) != Some(username)
  {
  }

  /**
   * A room code holding `_` shifts the fields: for a room `a_b` the second
   * field is `b`, never the username (unless it equals `b`).
   */
  lemma UnderscoreRoomShiftsField(a: string, b: string, username: string, stamp: string)
    requires '_' !in a && '_' !in b && '_' !in username && '_' !in stamp
    ensures SecondField(ServerModels.WebSocketId(a + "_" + b, username, stamp)) == Some(b)
  {
    var rest := username + "_" + stamp;
    var tail := b + "_" + rest;
    assert ServerModels.WebSocketId(a + "_" + b, username, stamp) == a + ['_'] + tail;
    assert tail == b + ['_'] + rest;
    SplitAtFirstSeparator(a, '_', tail);
    SplitAtFirstSeparator(b, '_', rest);
    assert Split(tail, '_')[0] == b;
  }

  /** One rendered row: rank, domain and colour dot. */
  datatype Row = Row(rank: int, domain: string, color: string)

  function RowOf(players: seq<Player>, e: DomainEntry): Row {
    Row(e.rank, e.domain, GetPlayerColor(players, e.playerId))
  }

  /** `entered_domains.map(...)`: one row per entry, in stored order. */
  function Rows(players: seq<Player>, entries: seq<DomainEntry>): (rows: seq<Row>)
    ensures |rows| == |entries|
    ensures forall i :: 0 <= i < |entries| ==> rows[i] == RowOf(players, entries[i])
  {
    if entries == [] then [] else [RowOf(players, entries[0])] + Rows(players, entries[1..])
  }

  /** Appending an entry to the log appends its row at the bottom. */
  lemma RowsAppend(players: seq<Player>, entries: seq<DomainEntry>, e: DomainEntry)
    ensures Rows(players, entries + [e]) == Rows(players, entries) + [RowOf(players, e)]
  {
    var a := Rows(players, entries + [e]);
    var b := Rows(players, entries) + [RowOf(players, e)];
    assert |a| == |b|;
    forall i | 0 <= i < |a| ensures a[i] == b[i] {
      if i < |entries| {
        assert (entries + [e])[i] == entries[i];
      }
    }
  }
}
