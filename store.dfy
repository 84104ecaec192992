/**
 * The persisted store as an object whose tables the request handlers update
 * in place, one statement at a time, as the SQL statements of the handlers do.
 */
module Store {
  import opened Course
  import opened Session

  class Store {
    var games: map<int, Game>
    var devices: set<string>
    var players: map<int, Player>
    var results: seq<ResultRow>
    var leaderboard: seq<Entry>

    /** The tables as one value. */
    function State(): Db
      reads this
    {
      Db(games, devices, players, results, leaderboard)
    }

    /** Game codes are unique. */
    ghost predicate Valid()
      reads this
    {
      CodesUnique(State())
    }

    constructor (db: Db)
      requires CodesUnique(db)
      ensures Valid() && State() == db
    {
      games, devices, players := db.games, db.devices, db.players;
      results, leaderboard := db.results, db.leaderboard;
    }

    /** `GET /api/get_game?code=...`: start the pending game with this code. */
    method StartGame(code: string) returns (r: Result<StartInfo>)
      requires Valid()
      modifies this
      ensures Valid()
      ensures (State(), r) == Start(old(State()), code)
      ensures r.Ok? ==> games == old(games)[r.value.gameId := old(games)[r.value.gameId].(status := Started)]
      ensures r.Err? ==> State() == old(State())
    {
      if code == "" {
        return Err(MissingParameter);
      }
      if id :| id in games && Startable(State(), id, code) {
        ghost var db := State();
        var g := games[id];
        games := games[id := g.(status := Started)];
        r := Ok(StartInfo(id, g.device, g.player, g.difficulty, Tolerance(g.difficulty), Targets,
                          |Targets|, 1, Pars[0], Targets[0]));
        forall other | Startable(db, other, code)
          ensures other == id
        {
          StartableUnique(db, code, other, id);
        }
        StartPreservesCodesUnique(db, code);
      } else {
        r := Err(NotFound);
      }
    }

    /** `POST /api/submit_shot`: score one shot; `today` is the current day. */
    method SubmitShot(gameId: int, hole: int, revolutions: int, today: int)
      returns (r: Result<ShotReply>)
      requires Valid()
      modifies this
      ensures Valid()
      ensures (State(), r) == Shot(old(State()), gameId, hole, revolutions, today)
      ensures r.Err? ==> State() == old(State())
      ensures devices == old(devices) && players == old(players)
    {
      ghost var db := State();
      ShotPreservesCodesUnique(db, gameId, hole, revolutions, today);
      if gameId == 0 || hole == 0 || revolutions == 0 {
        return Err(MissingParameter);
      }
      if !Bindable(gameId) {
        return Err(Failure);
      }
      if gameId !in games {
        return Err(NotFound);
      }
      var g := games[gameId];
      if g.status != Started {
        return Err(NotActive);
      }
      if !InRange(hole) {
        return Err(Failure);
      }
      if !Bindable(revolutions) || !Bindable(g.totalStrokes + 1) {
        return Err(Failure);
      }
      r := Score(gameId, hole, revolutions, today);
    }

    /** The accepted part of a shot: a miss, a completed hole or the completed round. */
    method Score(gameId: int, hole: int, revolutions: int, today: int)
      returns (r: Result<ShotReply>)
      requires gameId in games && InRange(hole)
      modifies this
      ensures (State(), r) == Judge(old(State()), gameId, hole, revolutions, today)
      ensures devices == old(devices) && players == old(players)
    {
      var g := games[gameId];
      var target := Targets[Index(hole)];
      if !IsHit(revolutions, target, Tolerance(g.difficulty)) {
        r := Miss(gameId, hole, revolutions);
      } else if hole < |Targets| {
        r := HoleDone(gameId, hole, revolutions);
      } else {
        r := RoundDone(gameId, hole, revolutions, today);
      }
    }

    /** A miss: only the attempt is logged. */
    method Miss(gameId: int, hole: int, revolutions: int) returns (r: Result<ShotReply>)
      requires gameId in games && InRange(hole)
      requires !IsHit(revolutions, Targets[Index(hole)], Tolerance(games[gameId].difficulty))
      modifies this
      ensures forall today :: (State(), r) == Judge(old(State()), gameId, hole, revolutions, today)
      ensures devices == old(devices) && players == old(players)
    {
      var g := games[gameId];
      var target := Targets[Index(hole)];
      var total := g.totalStrokes + 1;
      results := results + [ResultRow(gameId, hole, total, revolutions, false)];
      r := Ok(Continue(-(revolutions - target), total - g.totalStrokes, target,
                       Tolerance(g.difficulty), Pars[Index(hole)]));
    }

    /** A hit before the last hole: the stroke is counted and the next hole reported. */
    method HoleDone(gameId: int, hole: int, revolutions: int) returns (r: Result<ShotReply>)
      requires gameId in games && InRange(hole) && hole < |Targets|
      requires IsHit(revolutions, Targets[Index(hole)], Tolerance(games[gameId].difficulty))
      modifies this
      ensures forall today :: (State(), r) == Judge(old(State()), gameId, hole, revolutions, today)
      ensures devices == old(devices) && players == old(players)
    {
      var g := games[gameId];
      var total := g.totalStrokes + 1;
      results := results + [ResultRow(gameId, hole, total, revolutions, false)];
      games := games[gameId := g.(totalStrokes := total)];
      results := MarkCompleted(results, gameId, hole);
      var next := hole + 1;
      r := Ok(HoleCompleted(next, Targets[Index(next)], Pars[Index(next)], |Targets|,
                            total - g.totalStrokes));
    }

    /** A hit on the last hole: the game is completed and a leaderboard entry added. */
    method RoundDone(gameId: int, hole: int, revolutions: int, today: int)
      returns (r: Result<ShotReply>)
      requires gameId in games && InRange(hole) && hole >= |Targets|
      requires IsHit(revolutions, Targets[Index(hole)], Tolerance(games[gameId].difficulty))
      modifies this
      ensures (State(), r) == Judge(old(State()), gameId, hole, revolutions, today)
      ensures devices == old(devices) && players == old(players)
    {
      ghost var db := State();
      var g := games[gameId];
      var total := g.totalStrokes + 1;
      results := results + [ResultRow(gameId, hole, total, revolutions, false)];
      games := games[gameId := g.(totalStrokes := total)];
      games := games[gameId := games[gameId].(status := Completed, totalStrokes := total)];
      assert games == db.games[gameId := g.(status := Completed, totalStrokes := total)];
      var row := games[gameId];
      leaderboard := leaderboard + [Entry(today, row.difficulty, row.player, row.totalStrokes)];
      results := MarkCompleted(results, gameId, hole);
      r := Ok(GameCompleted(total, TotalPar(), total - TotalPar()));
    }
  }
}
