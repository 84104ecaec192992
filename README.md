# telegolf1d core, modelled in Dafny

telegolf1d is a Flask + SQLite server for a one-dimensional golf-putting game.
A device measures how many revolutions a putt made, and the server scores that
number against a fixed 18-hole course. This project models the server's core:

* the course table (targets and pars) and the difficulty-to-tolerance table
  (`course.dfy`, module `Course`);
* the game-session state machine (`session.dfy`, module `Session`):
  * starting a pending game by its code (`GET /api/get_game`);
  * scoring a submitted shot (`POST /api/submit_shot`);
  * both are pure transitions from the old tables (`Db`) to the new tables
    plus a reply. Lemmas about them cover:
    * the error cases;
    * the hit/miss rule;
    * one result row per shot;
    * advancing and completing a round;
    * the leaderboard entry written at the end;
* the same handlers as methods of a `Store` class (`store.dfy`):
  * the class holds the tables as `map`/`seq`/`set` fields and updates them
    one SQL statement at a time;
  * each method is proved to end in exactly the state, and return exactly the
    reply, of the `Session` transition;
* the leaderboard read (`leaderboard.dfy`, `GET /api/get_leaderboard`):
  * the SQL query is a pure pipeline. It keeps the recent entries of one
    difficulty that join with a player. It groups them by player and keeps
    each player's minimum. It then sorts by score (an insertion sort proved
    sorted and a permutation) and applies `LIMIT`.
  * the `enumerate` loop that ranks and labels the rows is a method with a
    loop invariant.

Conventions of the model:
* **Day numbers.** Dates are integers counting days. The current day is a
  parameter (`today`).
* **Hole numbers.** A hole number is used as a Python list index: `hole - 1`
  in `-18..17` is valid, and a negative index counts from the end. Any other
  hole number makes the lookup raise. The handler then answers 500 and commits
  nothing, which is the `Failure` error.
* **Missing parameters.** A parameter is "missing" when it is falsy: an empty
  code, or a game id, hole or revolution count equal to 0.
* **64-bit parameters.** SQLite stores integers as signed 64-bit values, and
  the sqlite3 driver raises OverflowError when a bound int does not fit. Such
  a shot therefore fails with `Failure` and writes nothing. A game id is bound
  first (main.py:166). The revolutions and the new stroke count are bound
  later, by the INSERT after the hole lookup (main.py:179-182).
* **Misses.** The row logged for a miss carries the incremented stroke count
  (main.py:178-182). The game's own count is only written back on a hit
  (main.py:184). `Session.MissNotWrittenBack` shows the consequence: after a
  hit and a miss the game still records one stroke.

Where the definitions are:
* `Session.Start` models `api_get_game` and `Session.Shot` models
  `api_submit_shot`. `Session.Judge` is the part of `Shot` after the
  request has been accepted.
* `Store.Store.StartGame` and `Store.Store.SubmitShot` perform the same two
  handlers on the class fields.
* `Leaderboard.TopScores` models the SQL query of `api_get_leaderboard`. It
  is built from `Recent` (WHERE and JOIN), `Groups` (GROUP BY with MIN),
  `Ranked` (ORDER BY) and `Take` (LIMIT).
* `Leaderboard.GetLeaderboard` models the loop that ranks and labels the
  rows.
* The table below lists the contracts and lemmas that state what these
  definitions do.

## Model

| member | source | states |
|---|---|---|
| Course.Tolerance | main.py:93-95 | the tolerance lies between 2 and 10; every difficulty outside 1..5 gets the default 5 |
| Course.ToleranceTable | main.py:94 | difficulties 1..5 map to tolerances 10, 7, 5, 3, 2 |
| Course.ToleranceDecreasing | main.py:94 | a harder level allows strictly less deviation than an easier one |
| Course.DefaultIsMidLevel | main.py:95 | an unknown difficulty is scored like difficulty 3 |
| Course.CourseWellFormed | main.py:85-91 | the course has 18 targets and 18 pars; every target is positive and every par is 3..5 |
| Course.TotalParIs64 | main.py:211 | the sum of the pars is 64 |
| Course.Index | main.py:173 | a valid `hole - 1` index denotes a position below 18 |
| Course.IndexIsPythonIndex | main.py:173 | the position read is `(hole - 1) mod 18`; for holes 1..18 it is `hole - 1` |
| Session.MarkCompletedFlags | main.py:214 | the UPDATE changes only the completed flag, and sets it exactly on the rows of that game and hole |
| Session.StartableUnique | main.py:42 | with unique game codes, at most one pending, joinable game has a given code |
| Session.StartOutcome | main.py:117-151 | Start succeeds iff the code is non-empty and a pending game with it joins a device and a player; it then marks that game started and replies with its device, player, difficulty, tolerance, the 18 targets, hole 1, par 3, target 140; otherwise nothing changes and the error is MissingParameter for an empty code, else NotFound |
| Session.StartPreservesCodesUnique | main.py:133 | starting a game keeps game codes unique |
| Session.StartTwiceFails | main.py:127-133 | once a code has started its game, a second request with it finds nothing and changes nothing |
| Session.ShotRejected | main.py:162-182 | the error is MissingParameter iff a parameter is 0. Failure iff the game id does not fit SQLite's 64-bit INTEGER, or, for a started game, the hole is not a valid index or the revolutions or the new stroke count do not fit. NotFound iff the game is unknown. NotActive iff the game is not started. Otherwise the shot is accepted. A rejected shot changes no table |
| Session.ShotHitIff | main.py:173-183 | an accepted shot is a hit iff the absolute difference between revolutions and target is at most the tolerance, the boundary counting as a hit |
| Session.ShotRecordsOneRow | main.py:178-214 | an accepted shot appends exactly one result row `(game, hole, strokes + 1, revolutions)`, completed iff it is a hit; older rows change only in their completed flag, only on a hit, and only for that game and hole; devices, players and the set of games are unchanged |
| Session.ShotMiss | main.py:215-224 | a miss changes only the results table and replies `continue` with needed = target - revolutions, one stroke on the hole, the current target, the tolerance and the par |
| Session.ShotHitBeforeLast | main.py:183-197 | a hit below hole 18 adds one stroke, keeps the game started, leaves the leaderboard alone and reports the next hole's number, target and par, 18 holes, and one stroke |
| Session.ShotHitLast | main.py:198-213 | a hit on hole 18 completes the game with one more stroke, appends one leaderboard entry (today, difficulty, player, total) and replies total, par 64, and total - 64 |
| Session.ShotPreservesCodesUnique | main.py:184-206 | scoring a shot keeps game codes unique |
| Session.OnTargetHits | main.py:173-183 | a shot exactly on target of holes 1..18 of a started game is accepted as a hit, when the game id and the stroke count fit 64 bits |
| Session.OnTargetStep | main.py:183-197 | when the earlier holes are done, one on-target hole below 18 adds exactly one stroke to the game |
| Session.OnTargetPrefix | main.py:183-197 | after holes 1..n (n < 18) on target, the game is still started, has n more strokes, and the leaderboard is unchanged |
| Session.PerfectRound | main.py:198-213 | a whole round on target completes the game with 18 more strokes and adds exactly one leaderboard entry; from 0 strokes the reply is 18 strokes, par 64, 46 under par |
| Session.MissNotWrittenBack | main.py:178-224 | difficulty 3, hole 1 hit with 143, then hole 2 missed with 200: replies `hole_completed(2, 180, 4, 18, 1)` and `continue(-20, 1, 180, 5, 4)`; the miss is logged as stroke 2 but the game keeps 1 stroke |
| Store.Store.StartGame | main.py:114-153 | the new tables and the reply are those of Session.Start; codes stay unique; only the started game's status changes; on an error nothing changes |
| Store.Store.SubmitShot | main.py:155-229 | the new tables and the reply are those of Session.Shot; codes stay unique; on an error nothing changes; devices and players never change |
| Store.Store.Score | main.py:173-224 | the accepted part of a shot ends in the state and reply of the hit/miss judgement |
| Store.Store.Miss | main.py:215-224 | after logging a miss, state and reply are those of the judgement |
| Store.Store.HoleDone | main.py:183-197 | the stroke write-back, the completed flags and the next-hole reply after a hit below the last hole give the state and reply of the judgement |
| Store.Store.RoundDone | main.py:198-214 | the game completion, the leaderboard INSERT ... SELECT and the final reply give the state and reply of the judgement |
| Leaderboard.Recent | main.py:240-242 | the kept entries are exactly those of the difficulty, inside the 7-day window, whose player joins the players table |
| Leaderboard.Contenders | main.py:243 | the groups are exactly the players of the kept entries, each once |
| Leaderboard.Best | main.py:239 | the group's score is the total of one of its entries, and no entry of the group is lower |
| Leaderboard.RowsFor | main.py:239-243 | one row per group, in group order, carrying the player's record and best score |
| Leaderboard.Insert | main.py:244 | insertion adds exactly the one row (multiset) |
| Leaderboard.InsertSorted | main.py:244 | inserting into a score-sorted list keeps it sorted |
| Leaderboard.InsertDistinct | main.py:244 | inserting a row of a new player keeps players distinct |
| Leaderboard.SortSorted | main.py:244 | ORDER BY best_score yields rows in non-decreasing score |
| Leaderboard.SortPermutes | main.py:244 | sorting is a permutation of the groups |
| Leaderboard.SortDistinct | main.py:244 | sorting keeps one row per player |
| Leaderboard.TakeKeeps | main.py:245 | LIMIT only drops rows |
| Leaderboard.TakeOrdered | main.py:245 | LIMIT keeps order and distinctness, and a non-negative limit bounds the count |
| Leaderboard.GroupsAreBest | main.py:239-243 | every group row is its player's record with their minimum counted total |
| Leaderboard.GroupsCover | main.py:239-243 | every player with a counted entry has a group row |
| Leaderboard.GroupsDistinct | main.py:243 | group rows have distinct players |
| Leaderboard.RankedSameRows | main.py:244 | the ordered rows are sorted, of distinct players, and the same rows as the groups |
| Leaderboard.RankedBest | main.py:239-244 | every ordered row is its player's best counted total |
| Leaderboard.RankedMinimal | main.py:239-244 | no counted entry of a row's player is lower than the row |
| Leaderboard.RankedCover | main.py:239-244 | every counted player appears among the ordered rows |
| Leaderboard.TopScoresAreBest | main.py:238-246 | each returned row is a player from the players table with that player's record, and its score is the minimum total over that player's entries of the difficulty in the last 7 days |
| Leaderboard.TopScoresOrdered | main.py:238-246 | at most `limit` rows for a non-negative limit, one row per player, scores non-decreasing |
| Leaderboard.TopScoresComplete | main.py:238-246 | every player with a counted entry is returned, unless the list holds `limit` rows that all score no worse than that entry |
| Leaderboard.NatToStringRoundTrip | main.py:253 | the decimal text of a rank reads back as that rank |
| Leaderboard.PlaceholderInjective | main.py:253 | different ranks get different `Игрок {i}` placeholders |
| Leaderboard.Label | main.py:253 | the label is the username if non-empty, else the full name if non-empty, else the placeholder; never empty |
| Leaderboard.GetLeaderboard | main.py:249-256 | row i has rank i + 1, the label of the i-th query row at that rank and its score; at most `limit` rows; scores non-decreasing; every label non-empty; two players with neither name get different labels |

## Left out

- HTTP, Flask routing, JSON decoding and encoding, and HTTP status codes are not modelled. Each error response is an `Error` value.
- The human-readable `message` strings of shot replies are not modelled. They are f-strings, one using float formatting.
- `datetime("now")` and `datetime.now()` timestamps (`started_at`, `completed_at`, the result `timestamp`) are not modelled. `date("now")` is the `today` parameter, in days.
- Revolutions are integers. The wire format allows JSON floats, and floating point is out of scope.
- Non-integer JSON values that make the arithmetic raise (strings, lists) are not modelled. Only the index error of an out-of-range hole and the 64-bit binding overflow are.
- A NULL `total_strokes` read as 0 (`total_strokes or 0`) is not modelled: the column defaults to 0 and the model's field is a `nat`.
- A NULL username or full name is the empty string. Python's `or` treats both alike.
- Concurrency and transactions are not modelled. Each request is one atomic transition, whereas the source has no per-game serialization.
- `api_ping`, `admin_stats`, the index page and `init_database` (apart from the UNIQUE game code, a `Valid` invariant) are outside the core.
- Leaderboard.GetLeaderboard: a `difficulty` or `limit` that does not fit in 64 bits makes the driver raise, giving a 500 reply. The model has no error result for it and returns the board.
- The request defaults `difficulty=1` and `limit=10` of the leaderboard request are transport and are not modelled. Both are parameters.
- Leaderboard.SortByScore: among rows with equal scores the order is that of the insertion sort. SQLite leaves it unspecified, so no lemma relies on it.
- Leaderboard.TopScoresComplete: the exact number of rows below the limit is not stated. The completeness statement and the bound are.
- Leaderboard.Best: requires that the player has an entry in the list. Every group of GROUP BY has one.
