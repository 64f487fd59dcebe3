/**
 * The server's game rules (backend/app/game_logic.py): the rank table read
 * from the rankings file, domain validation, scoring guards, the end-of-game
 * test, winner selection and the shape of a game update. Times are integer
 * seconds.
 */
module GameRules {
  import opened Wrappers
  import opened Text
  import opened ServerModels

  /** `GAME_DURATION`, 60 seconds. */
  const GameDuration := 60

  /** `timedelta.seconds` of a whole-second duration: the seconds within the last day. */
  const SecondsPerDay := 86400

  /** `s.strip().lower()`: the key of a rankings line and the form a submitted domain is checked in. */
  function Normalize(s: string): string {
    Lower(Trim(s))
  }

  /** The key of every line, in file order. */
  function LineKeys(lines: seq<string>): seq<string> {
    seq(|lines|, i requires 0 <= i < |lines| => Normalize(lines[i]))
  }

  /** Each key (from 1) under its position; a later repeat overwrites an earlier one. */
  function KeyTable(keys: seq<string>): map<string, int> {
    if keys == [] then map[]
    else KeyTable(keys[..|keys| - 1])[keys[|keys| - 1] := |keys|]
  }

  /** The table built from the lines, line `i` (from 1) under its key; later lines overwrite. */
  function RankTable(lines: seq<string>): (table: map<string, int>)
    ensures |lines| > 0 ==> var last := Normalize(lines[|lines| - 1]); last in table && table[last] == |lines|
  {
    KeyTable(LineKeys(lines))
  }

  /** Reading one more line stores it under its key, over whatever was there. */
  lemma RankTableSnoc(lines: seq<string>, i: nat)
    requires i < |lines|
    ensures RankTable(lines[..i + 1]) == RankTable(lines[..i])[Normalize(lines[i]) := i + 1]
  {
    var keys := LineKeys(lines[..i + 1]);
    assert keys[..i] == LineKeys(lines[..i]);
    assert keys[i] == Normalize(lines[i]);
  }

  /** A key is in the table exactly when it occurs in the key sequence. */
  lemma {:induction false} KeyTableKeys(keys: seq<string>, k: string)
    ensures k in KeyTable(keys) <==> k in keys
  {
    if keys != [] {
      var init := keys[..|keys| - 1];
      KeyTableKeys(init, k);
      assert keys == init + [keys[|keys| - 1]];
    }
  }

  /** A key is stored under the 1-based position of its LAST occurrence. */
  lemma {:induction false} KeyTableLastWins(keys: seq<string>, k: string)
    requires k in KeyTable(keys)
    ensures 1 <= KeyTable(keys)[k] <= |keys|
    ensures keys[KeyTable(keys)[k] - 1] == k
    ensures forall j :: KeyTable(keys)[k] <= j < |keys| ==> keys[j] != k
  {
    var init := keys[..|keys| - 1];
    if keys[|keys| - 1] != k {
      KeyTableLastWins(init, k);
    }
  }

  /** A key is in the table exactly when some line normalises to it. */
  lemma RankTableKeys(lines: seq<string>, k: string)
    ensures k in RankTable(lines) <==> exists i :: 0 <= i < |lines| && Normalize(lines[i]) == k
  {
    var keys := LineKeys(lines);
    KeyTableKeys(keys, k);
    if k in keys {
      var i :| 0 <= i < |keys| && keys[i] == k;
      assert Normalize(lines[i]) == k;
    }
    if exists i :: 0 <= i < |lines| && Normalize(lines[i]) == k {
      var i :| 0 <= i < |lines| && Normalize(lines[i]) == k;
      assert keys[i] == k;
    }
  }

  /** A key's rank is the 1-based position of the LAST line that normalises to it. */
  lemma RankTableLastWins(lines: seq<string>, k: string)
    requires k in RankTable(lines)
    ensures 1 <= RankTable(lines)[k] <= |lines|
    ensures Normalize(lines[RankTable(lines)[k] - 1]) == k
    ensures forall j :: RankTable(lines)[k] <= j < |lines| ==> Normalize(lines[j]) != k
  {
    var keys := LineKeys(lines);
    KeyTableLastWins(keys, k);
    var r := KeyTable(keys)[k];
    assert RankTable(lines)[k] == r;
    assert keys[r - 1] == k;
    LineKeyAt(lines, r - 1);
    assert Normalize(lines[r - 1]) == k;
    forall j | r <= j < |lines| ensures Normalize(lines[j]) != k {
      LineKeyAt(lines, j);
    }
  }

  lemma LineKeyAt(lines: seq<string>, j: nat)
    requires j < |lines|
    ensures |LineKeys(lines)| == |lines| && LineKeys(lines)[j] == Normalize(lines[j])
  {
  }

  /** `calculate_score`, with `formula` the truncated value of the logarithmic formula. */
  function CalculateScore(rank: int, formula: int): (points: int)
    ensures rank <= 0 ==> points == 0
    ensures rank > 0 ==> points >= 1 && points >= formula
    ensures rank > 0 ==> points == if formula > 1 then formula else 1
  {
    if rank <= 0 then 0 else if formula > 1 then formula else 1
  }

  /** `is_game_over`: active, started, and at least the game's duration has passed. */
  predicate IsGameOver(gs: GameState, now: int) {
    gs.isActive && gs.startTime.Some? && now - gs.startTime.value >= GameDuration
  }

  /** Once over, a game stays over at every later time; an inactive or unstarted game is never over. */
  lemma GameOverPersists(gs: GameState, now: int, later: int)
    requires now <= later
    ensures IsGameOver(gs, now) ==> IsGameOver(gs, later)
    ensures !gs.isActive || gs.startTime.None? ==> !IsGameOver(gs, later)
    ensures gs.isActive && gs.startTime.Some? && later < gs.startTime.value + GameDuration ==> !IsGameOver(gs, later)
  {
  }

  /** The first player whose score no player exceeds (Python's `max` keeps the first of equals). */
  function FirstMaxIndex(ps: seq<Player>): (k: nat)
    requires |ps| > 0
    ensures k < |ps|
    ensures forall j :: 0 <= j < |ps| ==> ps[j].score <= ps[k].score
    ensures forall j :: 0 <= j < k ==> ps[j].score < ps[k].score
  {
    if |ps| == 1 then 0
    else
      var k := FirstMaxIndex(ps[..|ps| - 1]);
      if ps[|ps| - 1].score > ps[k].score then |ps| - 1 else k
  }

  /** `get_winner`: no winner without players, else the first top scorer in dict order. */
  function GetWinner(gs: GameState): (w: Option<Player>)
    ensures w.None? <==> gs.players == []
    ensures w.Some? ==>
      exists k :: 0 <= k < |gs.players| && gs.players[k] == w.value
        && (forall j :: 0 <= j < |gs.players| ==> gs.players[j].score <= w.value.score)
        && (forall j :: 0 <= j < k ==> gs.players[j].score < w.value.score)
  {
    if gs.players == [] then None else Some(gs.players[FirstMaxIndex(gs.players)])
  }

  /**
   * `time_remaining` as the source computes it: `max(0, (GAME_DURATION -
   * elapsed).seconds)`. `.seconds` of a negative duration wraps into the day,
   * so for a day after the end the value is positive again.
   */
  function TimeRemainingAsWritten(gs: GameState, now: int): (left: int)
    ensures 0 <= left < SecondsPerDay
    ensures !(gs.isActive && gs.startTime.Some?) ==> left == GameDuration
    ensures gs.isActive && gs.startTime.Some? && gs.startTime.value <= now < gs.startTime.value + GameDuration ==>
      left == GameDuration - (now - gs.startTime.value)
    ensures gs.isActive && gs.startTime.Some? ==>
      var elapsed := now - gs.startTime.value;
      GameDuration < elapsed < GameDuration + SecondsPerDay ==> left == GameDuration + SecondsPerDay - elapsed
  {
    if gs.isActive && gs.startTime.Some? then
      var left := (GameDuration - (now - gs.startTime.value)) % SecondsPerDay;
      if left > 0 then left else 0
    else GameDuration
  }

  /**
   * A player joining five seconds after the end of a game that no frame has
   * closed yet is sent an update reporting 86395 seconds left instead of 0.
   */
  lemma TimeRemainingWrapsAfterEnd()
    ensures var gs := GameState(true, Some(0), None, [], [], "AB12CD");
      && IsGameOver(gs, 65)
      && TimeRemainingAsWritten(gs, 65) == 86395
      && FormatGameUpdate(gs, 65, None).gameState.timeRemaining == 86395
      && TimeRemaining(gs, 65) == 0
  {
  }

  /** The remaining time, clamped at zero once the game's duration has passed. */
  function TimeRemaining(gs: GameState, now: int): (left: int)
    ensures left >= 0
    ensures !(gs.isActive && gs.startTime.Some?) ==> left == GameDuration
    ensures gs.startTime.Some? && now >= gs.startTime.value ==> left <= GameDuration
    ensures left == 0 <==> IsGameOver(gs, now)
  {
    if gs.isActive && gs.startTime.Some? then
      var left := GameDuration - (now - gs.startTime.value);
      if left > 0 then left else 0
    else GameDuration
  }

  /** Both agree while the game is running within its duration, and before it starts. */
  lemma TimeRemainingAgreesBeforeEnd(gs: GameState, now: int)
    requires gs.startTime.Some? ==> gs.startTime.value <= now
    requires !IsGameOver(gs, now)
    ensures TimeRemainingAsWritten(gs, now) == TimeRemaining(gs, now)
  {
  }

  function ViewOfPlayer(p: Player): PlayerView {
    PlayerView(p.username, p.color, p.score)
  }

  /**
   * `format_game_update`: the activity flag, the remaining time as the source
   * computes it (wrapping after the end), the players in dict order, the
   * domain log as stored and the latest entry if given. Before the end the
   * time agrees with the clamped one.
   */
  function FormatGameUpdate(gs: GameState, now: int, latest: Option<DomainEntry>): (m: ServerMessage)
    ensures m.GameUpdate?
    ensures m.gameState.isActive == gs.isActive
    ensures m.gameState.timeRemaining == TimeRemainingAsWritten(gs, now)
    ensures (gs.startTime.Some? ==> gs.startTime.value <= now) && !IsGameOver(gs, now) ==>
      m.gameState.timeRemaining == TimeRemaining(gs, now)
    ensures |m.gameState.players| == |gs.players|
    ensures forall i :: 0 <= i < |gs.players| ==> m.gameState.players[i] == ViewOfPlayer(gs.players[i])
    ensures m.gameState.enteredDomains == gs.enteredDomains
    ensures m.gameState.latestDomain == latest
  {
    GameUpdate(GameStateView(
      gs.isActive,
      TimeRemainingAsWritten(gs, now),
      seq(|gs.players|, i requires 0 <= i < |gs.players| => ViewOfPlayer(gs.players[i])),
      gs.enteredDomains,
      latest))
  }

  lemma UnionUpdate(m: map<string, int>, t: map<string, int>, k: string, v: int)
    ensures (m + t)[k := v] == m + t[k := v]
  {
  }

  class GameLogic {
    /** `domain_rankings`: normalised domain to rank. */
    var domainRankings: map<string, int>

    constructor ()
      ensures domainRankings == map[]
    {
      domainRankings := map[];
    }

    /**
     * `load_domain_rankings`; `file` holds the file's lines, or `None` when the
     * file is missing. Lines are added over what is already loaded.
     */
    method LoadDomainRankings(file: Option<seq<string>>)
      modifies this
      ensures file.None? ==> domainRankings == map[]
      ensures file.Some? ==> domainRankings == old(domainRankings) + RankTable(file.value)
    {
      match file
      case None =>
        domainRankings := map[];
      case Some(lines) =>
        ghost var read: map<string, int> := map[];
        assert lines[..0] == [];
        for i := 0 to |lines|
          invariant read == RankTable(lines[..i])
          invariant domainRankings == old(domainRankings) + read
        {
          var key := Normalize(lines[i]);
          RankTableSnoc(lines, i);
          UnionUpdate(old(domainRankings), read, key, i + 1);
          domainRankings := domainRankings[key := i + 1];
          read := read[key := i + 1];
        }
        assert lines[..|lines|] == lines;
    }

    /** `validate_domain`: valid with its rank exactly when the normalised domain is in the table. */
    function ValidateDomain(domain: string): (r: (bool, Option<int>))
      reads this
      ensures r.0 <==> Trim(Lower(domain)) in domainRankings
      ensures r.0 ==> r.1 == Some(domainRankings[Trim(Lower(domain))])
      ensures !r.0 ==> r.1 == None
    {
      var key := Trim(Lower(domain));
      if key in domainRankings then (true, Some(domainRankings[key])) else (false, None)
    }
  }

  /** Validation against a table loaded from `lines` accepts exactly the domains some line names. */
  lemma ValidAgainstFile(lines: seq<string>, domain: string)
    ensures var table := RankTable(lines);
      var key := Trim(Lower(domain));
      && (key in table <==> exists i :: 0 <= i < |lines| && Normalize(lines[i]) == Normalize(domain))
      && (key in table ==> 1 <= table[key] <= |lines| && Normalize(lines[table[key] - 1]) == Normalize(domain))
      && (key in table ==> forall j :: table[key] <= j < |lines| ==> Normalize(lines[j]) != Normalize(domain))
  {
    var key := Normalize(domain);
    TrimLowerCommute(domain);
    assert Trim(Lower(domain)) == key;
    var table := RankTable(lines);
    RankTableKeys(lines, key);
    if key in table {
      RankTableLastWins(lines, key);
      var r := table[key];
      assert forall j :: r <= j < |lines| ==> Normalize(lines[j]) != key;
    }
  }
}
