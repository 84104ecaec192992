/**
 * The game-session state machine: the persisted tables as one value (`Db`),
 * starting a game by its code and scoring a submitted shot, each as a pure
 * transition from the old tables to the new tables and a reply.
 */
module Session {
  import opened Course

  datatype Status = Pending | Started | Completed

  /** A row of the `games` table (timestamps are not modelled). */
  datatype Game = Game(code: string, device: string, player: int, difficulty: int,
                       status: Status, totalStrokes: nat)

  /** A row of the `game_results` table: one recorded attempt at a hole. */
  datatype ResultRow = ResultRow(game: int, hole: int, strokes: int, revolutions: int,
                                 completed: bool)

  /** A row of the `players` table; a NULL name is the empty string. */
  datatype Player = Player(username: string, fullName: string)

  /** A row of the `leaderboard` table; `date` is a day number. */
  datatype Entry = Entry(date: int, difficulty: int, player: int, totalStrokes: int)

  /** The persisted store: games keyed by game id, the device ids, players
      keyed by telegram id, and the two append-only tables. */
  datatype Db = Db(games: map<int, Game>, devices: set<string>, players: map<int, Player>,
                   results: seq<ResultRow>, leaderboard: seq<Entry>)

  /** MissingParameter: a falsy request parameter; NotFound: no such game;
      NotActive: the game is not started; Failure: the request raised. */
  datatype Error = MissingParameter | NotFound | NotActive | Failure

  datatype Result<T> = Ok(value: T) | Err(error: Error)

  datatype StartInfo = StartInfo(gameId: int, device: string, player: int, difficulty: int,
                                 tolerance: int, holes: seq<int>, totalHoles: int,
                                 currentHole: int, par: int, target: int)

  datatype ShotReply =
    | Continue(needed: int, strokesOnHole: int, currentTarget: int, tolerance: int, par: int)
    | HoleCompleted(nextHole: int, nextTarget: int, nextPar: int, totalHoles: int,
                    strokesOnHole: int)
    | GameCompleted(totalStrokes: int, totalPar: int, scoreDiff: int)

  /** The UNIQUE constraint on `games.game_code`. */
  ghost predicate CodesUnique(db: Db)
  {
    forall a, b :: a in db.games && b in db.games && db.games[a].code == db.games[b].code ==> a == b
  }

  /** Game `id` has the code, is pending, and joins with a device and a player. */
  predicate Startable(db: Db, id: int, code: string)
  {
    && id in db.games
    && db.games[id].code == code
    && db.games[id].status == Pending
    && db.games[id].device in db.devices
    && db.games[id].player in db.players
  }

  /** Looking a game up by code: the pending game with that code is started. */
  ghost function Start(db: Db, code: string): (Db, Result<StartInfo>)
  {
    if code == "" then (db, Err(MissingParameter))
    else if exists id :: Startable(db, id, code) then
      var id :| Startable(db, id, code);
      var g := db.games[id];
      (db.(games := db.games[id := g.(status := Started)]),
       Ok(StartInfo(id, g.device, g.player, g.difficulty, Tolerance(g.difficulty), Targets,
                    |Targets|, 1, Pars[0], Targets[0])))
    else (db, Err(NotFound))
  }

  function Abs(x: int): int
  {
    if x < 0 then -x else x
  }

  /** A shot hits when its deviation from the target is at most the tolerance. */
  predicate IsHit(revolutions: int, target: int, tolerance: int)
  {
    Abs(revolutions - target) <= tolerance
  }

  /** `UPDATE game_results SET completed = TRUE WHERE game_id = game AND hole_number = hole`. */
  function MarkCompleted(rows: seq<ResultRow>, game: int, hole: int): (r: seq<ResultRow>)
    ensures |r| == |rows|
  {
    seq(|rows|, i requires 0 <= i < |rows| =>
      if rows[i].game == game && rows[i].hole == hole then rows[i].(completed := true) else rows[i])
  }

  /** Only the completed flag changes, and it is set exactly on the rows of
      that game and hole. */
  lemma MarkCompletedFlags(rows: seq<ResultRow>, game: int, hole: int)
    ensures var r := MarkCompleted(rows, game, hole);
      && (forall i :: 0 <= i < |r| ==> r[i].(completed := rows[i].completed) == rows[i])
      && (forall i :: 0 <= i < |r| ==>
            r[i].completed == (rows[i].completed || (rows[i].game == game && rows[i].hole == hole)))
  {
  }

  /** Bounds of an SQLite INTEGER (signed 64-bit). */
  const MinInteger: int := -0x8000_0000_0000_0000
  const MaxInteger: int := 0x7FFF_FFFF_FFFF_FFFF

  /** Whether the sqlite3 driver can bind `x` as a parameter; binding any other
      int raises OverflowError. */
  predicate Bindable(x: int)
  {
    MinInteger <= x <= MaxInteger
  }

  /** Scoring one submitted shot against the tables. The game id is bound by the
      first SELECT; the revolutions and the new stroke count by the INSERT, which
      comes after the hole lookup. */
  function Shot(db: Db, gameId: int, hole: int, revolutions: int, today: int): (Db, Result<ShotReply>)
  {
    if gameId == 0 || hole == 0 || revolutions == 0 then (db, Err(MissingParameter))
    else if !Bindable(gameId) then (db, Err(Failure))
    else if gameId !in db.games then (db, Err(NotFound))
    else if db.games[gameId].status != Started then (db, Err(NotActive))
    else if !InRange(hole) then (db, Err(Failure))
    else if !Bindable(revolutions) || !Bindable(db.games[gameId].totalStrokes + 1) then
      (db, Err(Failure))
    else Judge(db, gameId, hole, revolutions, today)
  }

  /** The accepted part of Shot: log the attempt, then a miss, a hole or the round. */
  function Judge(db: Db, gameId: int, hole: int, revolutions: int, today: int): (Db, Result<ShotReply>)
    requires gameId in db.games && InRange(hole)
  {
    var g := db.games[gameId];
    var target, tolerance, par := Targets[Index(hole)], Tolerance(g.difficulty), Pars[Index(hole)];
    var total := g.totalStrokes + 1;
    var logged := db.results + [ResultRow(gameId, hole, total, revolutions, false)];
    if !IsHit(revolutions, target, tolerance) then
      (db.(results := logged),
       Ok(Continue(-(revolutions - target), total - g.totalStrokes, target, tolerance, par)))
    else if hole < |Targets| then
      (db.(games := db.games[gameId := g.(totalStrokes := total)],
           results := MarkCompleted(logged, gameId, hole)),
       Ok(HoleCompleted(hole + 1, Targets[Index(hole + 1)], Pars[Index(hole + 1)], |Targets|,
                        total - g.totalStrokes)))
    else
      var done := g.(status := Completed, totalStrokes := total);
      (db.(games := db.games[gameId := done],
           results := MarkCompleted(logged, gameId, hole),
           leaderboard := db.leaderboard + [Entry(today, done.difficulty, done.player, done.totalStrokes)]),
       Ok(GameCompleted(total, TotalPar(), total - TotalPar())))
  }

  // ---------------------------------------------------------------------------
  // Starting a game
  // ---------------------------------------------------------------------------

  lemma StartableUnique(db: Db, code: string, a: int, b: int)
    requires CodesUnique(db)
    requires Startable(db, a, code) && Startable(db, b, code)
    ensures a == b
  {
  }

  /** Start succeeds exactly when a startable game has the code; it then
      marks that game started and reports hole 1 of the course. */
  lemma StartOutcome(db: Db, code: string)
    ensures var (db', r) := Start(db, code);
      && (r.Ok? <==> code != "" && exists id :: Startable(db, id, code))
      && (r.Err? ==> db' == db && r.error == (if code == "" then MissingParameter else NotFound))
      && (r.Ok? ==>
            var id := r.value.gameId;
            var g := db.games[id];
            && Startable(db, id, code)
            && db' == db.(games := db.games[id := g.(status := Started)])
            && r.value == StartInfo(id, g.device, g.player, g.difficulty, Tolerance(g.difficulty),
                                    Targets, 18, 1, 3, 140))
  {
  }

  lemma StartPreservesCodesUnique(db: Db, code: string)
    requires CodesUnique(db)
    ensures CodesUnique(Start(db, code).0)
  {
  }

  /** A code starts at most one game: a second Start with it finds nothing. */
  lemma StartTwiceFails(db: Db, code: string)
    requires CodesUnique(db)
    requires Start(db, code).1.Ok?
    ensures Start(Start(db, code).0, code) == (Start(db, code).0, Err(NotFound))
  {
  }

  // ---------------------------------------------------------------------------
  // Scoring a shot
  // ---------------------------------------------------------------------------

  /** A shot is rejected exactly for a falsy parameter, a game id SQLite cannot bind,
      an unknown game, a game that is not started, a hole outside the course list,
      or revolutions or a new stroke count SQLite cannot bind; a rejected shot
      changes nothing. */
  lemma ShotRejected(db: Db, gameId: int, hole: int, revolutions: int, today: int)
    ensures var (db', r) := Shot(db, gameId, hole, revolutions, today);
      var given := !(gameId == 0 || hole == 0 || revolutions == 0);
      && (r.Err? ==> db' == db)
      && (r == Err(MissingParameter) <==> !given)
      && (r == Err(NotFound) <==> given && Bindable(gameId) && gameId !in db.games)
      && (r == Err(NotActive) <==>
            given && Bindable(gameId) && gameId in db.games && db.games[gameId].status != Started)
      && (r == Err(Failure) <==>
            given && (!Bindable(gameId)
                      || (gameId in db.games && db.games[gameId].status == Started
                          && (!InRange(hole) || !Bindable(revolutions)
                              || !Bindable(db.games[gameId].totalStrokes + 1)))))
      && (r.Ok? <==>
            given && Bindable(gameId) && gameId in db.games && db.games[gameId].status == Started
            && InRange(hole) && Bindable(revolutions) && Bindable(db.games[gameId].totalStrokes + 1))
  {
  }

  /** An accepted shot is a hit exactly when |revolutions - target| <= tolerance. */
  lemma ShotHitIff(db: Db, gameId: int, hole: int, revolutions: int, today: int)
    requires Shot(db, gameId, hole, revolutions, today).1.Ok?
    ensures InRange(hole) && gameId in db.games
    ensures var r := Shot(db, gameId, hole, revolutions, today).1.value;
      var target := Targets[Index(hole)];
      var tolerance := Tolerance(db.games[gameId].difficulty);
      (!r.Continue? <==> -tolerance <= revolutions - target <= tolerance)
  {
  }

  /** An accepted shot appends exactly one result row; older rows change at most
      in their completed flag, and only for this game and hole on a hit. */
  lemma ShotRecordsOneRow(db: Db, gameId: int, hole: int, revolutions: int, today: int)
    requires Shot(db, gameId, hole, revolutions, today).1.Ok?
    ensures gameId in db.games
    ensures var (db', r) := Shot(db, gameId, hole, revolutions, today);
      var hit := !r.value.Continue?;
      && |db'.results| == |db.results| + 1
      && db'.results[|db.results|]
           == ResultRow(gameId, hole, db.games[gameId].totalStrokes + 1, revolutions, hit)
      && (forall i :: 0 <= i < |db.results| ==>
            db'.results[i] == if hit && db.results[i].game == gameId && db.results[i].hole == hole
                              then db.results[i].(completed := true) else db.results[i])
      && db'.devices == db.devices && db'.players == db.players
      && db'.games.Keys == db.games.Keys
  {
  }

  /** On a miss only the new result row is written: the game's stroke count and
      status are not; the reply asks for target - revolutions more. */
  lemma ShotMiss(db: Db, gameId: int, hole: int, revolutions: int, today: int)
    requires Shot(db, gameId, hole, revolutions, today).1.Ok?
    requires Shot(db, gameId, hole, revolutions, today).1.value.Continue?
    ensures InRange(hole) && gameId in db.games
    ensures var (db', r) := Shot(db, gameId, hole, revolutions, today);
      var g := db.games[gameId];
      && db' == db.(results := db.results + [ResultRow(gameId, hole, g.totalStrokes + 1, revolutions, false)])
      && r.value == Continue(Targets[Index(hole)] - revolutions, 1, Targets[Index(hole)],
                             Tolerance(g.difficulty), Pars[Index(hole)])
  {
  }

  /** A hit before the last hole adds one stroke to the game, keeps it started,
      and reports the following hole. */
  lemma ShotHitBeforeLast(db: Db, gameId: int, hole: int, revolutions: int, today: int)
    requires Shot(db, gameId, hole, revolutions, today).1.Ok?
    requires !Shot(db, gameId, hole, revolutions, today).1.value.Continue?
    requires hole < 18
    ensures InRange(hole) && InRange(hole + 1) && gameId in db.games
    ensures var (db', r) := Shot(db, gameId, hole, revolutions, today);
      var g := db.games[gameId];
      && db'.games == db.games[gameId := g.(totalStrokes := g.totalStrokes + 1)]
      && db'.games[gameId].status == Started
      && db'.leaderboard == db.leaderboard
      && r.value == HoleCompleted(hole + 1, Targets[Index(hole + 1)], Pars[Index(hole + 1)], 18, 1)
      && (1 <= hole ==> Index(hole + 1) == hole)
  {
  }

  /** A hit on hole 18 completes the game with one more stroke, appends one
      leaderboard entry for it dated today, and reports the score against par 64. */
  lemma ShotHitLast(db: Db, gameId: int, revolutions: int, today: int)
    requires Shot(db, gameId, 18, revolutions, today).1.Ok?
    requires !Shot(db, gameId, 18, revolutions, today).1.value.Continue?
    ensures gameId in db.games
    ensures var (db', r) := Shot(db, gameId, 18, revolutions, today);
      var g := db.games[gameId];
      var total := g.totalStrokes + 1;
      && db'.games == db.games[gameId := g.(status := Completed, totalStrokes := total)]
      && db'.leaderboard == db.leaderboard + [Entry(today, g.difficulty, g.player, total)]
      && r.value == GameCompleted(total, 64, total - 64)
  {
    TotalParIs64();
  }

  lemma ShotPreservesCodesUnique(db: Db, gameId: int, hole: int, revolutions: int, today: int)
    requires CodesUnique(db)
    ensures CodesUnique(Shot(db, gameId, hole, revolutions, today).0)
  {
  }

  // ---------------------------------------------------------------------------
  // Whole rounds
  // ---------------------------------------------------------------------------

  /** The tables after shooting holes 1..n exactly on target. */
  function OnTargetThrough(db: Db, gameId: int, n: nat, today: int): Db
    requires n <= 18
  {
    if n == 0 then db
    else Shot(OnTargetThrough(db, gameId, n - 1, today), gameId, n, Targets[n - 1], today).0
  }

  /** A shot exactly on target of a valid hole of a started game is a hit. */
  lemma OnTargetHits(db: Db, gameId: int, hole: int, today: int)
    requires 1 <= hole <= 18
    requires gameId != 0 && Bindable(gameId) && gameId in db.games && db.games[gameId].status == Started
    requires db.games[gameId].totalStrokes < MaxInteger
    ensures Shot(db, gameId, hole, Targets[hole - 1], today).1.Ok?
    ensures !Shot(db, gameId, hole, Targets[hole - 1], today).1.value.Continue?
  {
    CourseWellFormed();
  }

  /** `after` holds game `gameId` of `db` still started, with `k` more strokes,
      and the leaderboard of `db`. */
  ghost predicate Advanced(after: Db, db: Db, gameId: int, k: nat)
    requires gameId in db.games
  {
    var g := db.games[gameId];
    && gameId in after.games
    && after.games[gameId] == g.(totalStrokes := g.totalStrokes + k)
    && after.games[gameId].status == Started
    && after.leaderboard == db.leaderboard
  }

  /** Hole n < 18 on target, after the holes before it: one more stroke. */
  lemma OnTargetStep(db: Db, gameId: int, n: nat, today: int)
    requires 1 <= n < 18 && gameId != 0 && Bindable(gameId) && gameId in db.games
    requires db.games[gameId].totalStrokes + 18 <= MaxInteger
    requires Advanced(OnTargetThrough(db, gameId, n - 1, today), db, gameId, n - 1)
    ensures Advanced(OnTargetThrough(db, gameId, n, today), db, gameId, n)
  {
    var before := OnTargetThrough(db, gameId, n - 1, today);
    OnTargetHits(before, gameId, n, today);
    ShotHitBeforeLast(before, gameId, n, Targets[n - 1], today);
  }

  /** After holes 1..n < 18 on target the game is still started, with n more
      strokes, and the leaderboard is untouched. */
  lemma {:induction false} OnTargetPrefix(db: Db, gameId: int, n: nat, today: int)
    requires n < 18
    requires gameId != 0 && Bindable(gameId) && gameId in db.games && db.games[gameId].status == Started
    requires db.games[gameId].totalStrokes + 18 <= MaxInteger
    ensures Advanced(OnTargetThrough(db, gameId, n, today), db, gameId, n)
  {
    if n > 0 {
      OnTargetPrefix(db, gameId, n - 1, today);
      OnTargetStep(db, gameId, n, today);
    }
  }

  /** A whole round on target: one stroke per hole, the game completes, and
      exactly one leaderboard entry is added; from a fresh game that is 18
      strokes, 46 under par. */
  lemma PerfectRound(db: Db, gameId: int, today: int)
    requires gameId != 0 && Bindable(gameId) && gameId in db.games && db.games[gameId].status == Started
    requires db.games[gameId].totalStrokes + 18 <= MaxInteger
    ensures var before := OnTargetThrough(db, gameId, 17, today);
      var (db', r) := Shot(before, gameId, 18, Targets[17], today);
      var g := db.games[gameId];
      var total := g.totalStrokes + 18;
      && r == Ok(GameCompleted(total, 64, total - 64))
      && gameId in db'.games
      && db'.games[gameId] == g.(status := Completed, totalStrokes := total)
      && db'.leaderboard == db.leaderboard + [Entry(today, g.difficulty, g.player, total)]
      && (g.totalStrokes == 0 ==> r == Ok(GameCompleted(18, 64, -46)))
  {
    OnTargetPrefix(db, gameId, 17, today);
    var before := OnTargetThrough(db, gameId, 17, today);
    OnTargetHits(before, gameId, 18, today);
    ShotHitLast(before, gameId, Targets[17], today);
  }

  /** Difficulty 3, hole 1 hit with 143, then hole 2 missed with 200: the miss asks
      for 20 fewer revolutions and is logged as stroke 2, but the game itself
      still records one stroke, because a miss does not write it back. */
  lemma MissNotWrittenBack(db: Db, gameId: int, today: int)
    requires gameId != 0 && Bindable(gameId) && gameId in db.games
    requires db.games[gameId].status == Started && db.games[gameId].totalStrokes == 0
    requires db.games[gameId].difficulty == 3
    ensures var (db1, r1) := Shot(db, gameId, 1, 143, today);
      var (db2, r2) := Shot(db1, gameId, 2, 200, today);
      && r1 == Ok(HoleCompleted(2, 180, 4, 18, 1))
      && r2 == Ok(Continue(-20, 1, 180, 5, 4))
      && db2.results[|db2.results| - 1].strokes == 2
      && db2.games[gameId].totalStrokes == 1
  {
  }
}
