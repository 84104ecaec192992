/**
 * The leaderboard read: the best total per player over the recent entries of
 * one difficulty, ascending, truncated, then ranked by position with a display
 * label for each row.
 */
module Leaderboard {
  import opened Session

  /** Length of the trailing window, in days. */
  const WindowDays: int := 7

  /** One aggregated row: a player, their players-table record and best score. */
  datatype Row = Row(player: int, who: Player, score: int)

  /** One row of the reply. */
  datatype Standing = Standing(rank: int, player: string, score: int)

  /** The WHERE clause (difficulty and window) and the join with `players`. */
  predicate Counts(e: Entry, players: map<int, Player>, difficulty: int, today: int)
  {
    e.difficulty == difficulty && e.date >= today - WindowDays && e.player in players
  }

  /** The entries that take part in the aggregation. */
  function Recent(entries: seq<Entry>, players: map<int, Player>, difficulty: int, today: int)
    : (ws: seq<Entry>)
    ensures forall e :: e in ws <==> e in entries && Counts(e, players, difficulty, today)
  {
    if entries == [] then []
    else
      var rest := Recent(entries[1..], players, difficulty, today);
      assert forall e :: e in entries <==> e == entries[0] || e in entries[1..];
      if Counts(entries[0], players, difficulty, today) then [entries[0]] + rest else rest
  }

  /** The groups of GROUP BY player_id: each player of `ws` once. */
  function Contenders(ws: seq<Entry>): (ps: seq<int>)
    ensures forall p :: p in ps <==> exists e :: e in ws && e.player == p
    ensures forall i, j :: 0 <= i < j < |ps| ==> ps[i] != ps[j]
  {
    if ws == [] then []
    else
      var rest := Contenders(ws[1..]);
      assert forall e :: e in ws <==> e == ws[0] || e in ws[1..];
      if ws[0].player in rest then rest else [ws[0].player] + rest
  }

  /** MIN(total_strokes) over the entries of player `p`. */
  function Best(ws: seq<Entry>, p: int): (b: int)
    requires exists e :: e in ws && e.player == p
    ensures exists e :: e in ws && e.player == p && e.totalStrokes == b
    ensures forall e :: e in ws && e.player == p ==> b <= e.totalStrokes
  {
    assert forall e :: e in ws <==> e == ws[0] || e in ws[1..];
    if ws[0].player != p then Best(ws[1..], p)
    else if exists e :: e in ws[1..] && e.player == p then
      var rest := Best(ws[1..], p);
      if ws[0].totalStrokes <= rest then ws[0].totalStrokes else rest
    else ws[0].totalStrokes
  }

  /** No entry of `row`'s player in `ws` scores less than `row`. */
  ghost predicate IsMinimal(row: Row, ws: seq<Entry>)
  {
    forall e :: e in ws && e.player == row.player ==> row.score <= e.totalStrokes
  }

  /** `row` is the best entry of its player among `ws`, with the player's record. */
  ghost predicate IsBestRow(row: Row, ws: seq<Entry>, players: map<int, Player>)
  {
    && row.player in players
    && row.who == players[row.player]
    && (exists e :: e in ws && e.player == row.player && e.totalStrokes == row.score)
    && IsMinimal(row, ws)
  }

  /** One aggregated row per player of `ps`. */
  function RowsFor(ps: seq<int>, ws: seq<Entry>, players: map<int, Player>): (rows: seq<Row>)
    requires forall i :: 0 <= i < |ps| ==> ps[i] in players
    requires forall i :: 0 <= i < |ps| ==> exists e :: e in ws && e.player == ps[i]
    ensures |rows| == |ps|
    ensures forall i :: 0 <= i < |rows| ==> rows[i].player == ps[i] && IsBestRow(rows[i], ws, players)
  {
    if ps == [] then []
    else
      [Row(ps[0], players[ps[0]], Best(ws, ps[0]))] + RowsFor(ps[1..], ws, players)
  }

  predicate SortedByScore(rows: seq<Row>)
  {
    forall i, j :: 0 <= i < j < |rows| ==> rows[i].score <= rows[j].score
  }

  predicate DistinctPlayers(rows: seq<Row>)
  {
    forall i, j :: 0 <= i < j < |rows| ==> rows[i].player != rows[j].player
  }

  /** A row no worse than every row of a sorted list may go in front of it. */
  lemma PrependSorted(h: Row, t: seq<Row>)
    requires SortedByScore(t)
    requires forall y :: y in t ==> h.score <= y.score
    ensures SortedByScore([h] + t)
  {
    var r := [h] + t;
    forall i, j | 0 <= i < j < |r| ensures r[i].score <= r[j].score {
      assert r[j] == t[j - 1];
      if i > 0 {
        assert r[i] == t[i - 1];
      } else {
        assert t[j - 1] in t;
      }
    }
  }

  /** A row whose player is not in a list of distinct players may go in front of it. */
  lemma PrependDistinct(h: Row, t: seq<Row>)
    requires DistinctPlayers(t)
    requires forall y :: y in t ==> y.player != h.player
    ensures DistinctPlayers([h] + t)
  {
    var r := [h] + t;
    forall i, j | 0 <= i < j < |r| ensures r[i].player != r[j].player {
      assert r[j] == t[j - 1];
      if i > 0 {
        assert r[i] == t[i - 1];
      } else {
        assert t[j - 1] in t;
      }
    }
  }

  lemma TailDistinct(rows: seq<Row>)
    requires rows != [] && DistinctPlayers(rows)
    ensures DistinctPlayers(rows[1..])
  {
    var t := rows[1..];
    forall i, j | 0 <= i < j < |t| ensures t[i].player != t[j].player {
      assert t[i] == rows[i + 1] && t[j] == rows[j + 1];
    }
  }

  /** Inserts `x` in front of the first row that scores no better than it. */
  function Insert(x: Row, s: seq<Row>): (r: seq<Row>)
    ensures multiset(r) == multiset(s) + multiset{x}
  {
    if s == [] || x.score <= s[0].score then [x] + s
    else
      assert s == [s[0]] + s[1..];
      [s[0]] + Insert(x, s[1..])
  }

  /** Inserting into a sorted list keeps it sorted. */
  lemma {:induction false} InsertSorted(x: Row, s: seq<Row>)
    requires SortedByScore(s)
    ensures SortedByScore(Insert(x, s))
  {
    if s == [] || x.score <= s[0].score {
      PrependSorted(x, s);
    } else {
      var rest := Insert(x, s[1..]);
      InsertSorted(x, s[1..]);
      forall y | y in rest ensures s[0].score <= y.score {
        assert y in multiset(rest);
        if y != x {
          var k :| 0 <= k < |s[1..]| && s[1..][k] == y;
          assert y == s[k + 1];
        }
      }
      PrependSorted(s[0], rest);
    }
  }

  /** Inserting a row of a new player keeps the players distinct. */
  lemma {:induction false} InsertDistinct(x: Row, s: seq<Row>)
    requires DistinctPlayers(s)
    requires forall y :: y in s ==> y.player != x.player
    ensures DistinctPlayers(Insert(x, s))
  {
    if s == [] || x.score <= s[0].score {
      PrependDistinct(x, s);
    } else {
      var tail := s[1..];
      TailDistinct(s);
      InsertDistinct(x, tail);
      var rest := Insert(x, tail);
      forall y | y in rest ensures y.player != s[0].player {
        assert y in multiset(rest);
        if y != x {
          var k :| 0 <= k < |tail| && tail[k] == y;
          assert s[k + 1] == y;
        }
      }
      PrependDistinct(s[0], rest);
    }
  }

  /** ORDER BY best_score (ties in no particular order). */
  function SortByScore(rows: seq<Row>): seq<Row>
  {
    if rows == [] then [] else Insert(rows[0], SortByScore(rows[1..]))
  }

  /** Insertion sort yields a list sorted by score ... */
  lemma {:induction false} SortSorted(rows: seq<Row>)
    ensures SortedByScore(SortByScore(rows))
  {
    if rows != [] {
      SortSorted(rows[1..]);
      InsertSorted(rows[0], SortByScore(rows[1..]));
    }
  }

  /** ... that is a permutation of its input. */
  lemma {:induction false} SortPermutes(rows: seq<Row>)
    ensures multiset(SortByScore(rows)) == multiset(rows)
  {
    if rows != [] {
      SortPermutes(rows[1..]);
      assert rows == [rows[0]] + rows[1..];
    }
  }

  /** Sorting keeps the players distinct. */
  lemma {:induction false} SortDistinct(rows: seq<Row>)
    requires DistinctPlayers(rows)
    ensures DistinctPlayers(SortByScore(rows))
  {
    if rows != [] {
      var tail := rows[1..];
      TailDistinct(rows);
      SortDistinct(tail);
      SortPermutes(tail);
      var rest := SortByScore(tail);
      forall y | y in rest ensures y.player != rows[0].player {
        assert y in multiset(rest);
        var k :| 0 <= k < |tail| && tail[k] == y;
        assert rows[k + 1] == y;
      }
      InsertDistinct(rows[0], rest);
    }
  }

  /** LIMIT: a negative limit means no limit. */
  function Take(rows: seq<Row>, limit: int): seq<Row>
  {
    if 0 <= limit < |rows| then rows[..limit] else rows
  }

  /** The result of GROUP BY player_id with MIN(total_strokes), in group order. */
  function Groups(entries: seq<Entry>, players: map<int, Player>, difficulty: int, today: int)
    : seq<Row>
  {
    var ws := Recent(entries, players, difficulty, today);
    var ps := Contenders(ws);
    assert forall i :: 0 <= i < |ps| ==> ps[i] in players by {
      forall i | 0 <= i < |ps| ensures ps[i] in players {
        assert ps[i] in ps;
      }
    }
    assert forall i :: 0 <= i < |ps| ==> exists e :: e in ws && e.player == ps[i] by {
      forall i | 0 <= i < |ps| ensures exists e :: e in ws && e.player == ps[i] {
        assert ps[i] in ps;
      }
    }
    RowsFor(ps, ws, players)
  }

  lemma GroupsAreBest(entries: seq<Entry>, players: map<int, Player>, difficulty: int, today: int)
    ensures forall row :: row in Groups(entries, players, difficulty, today) ==>
              IsBestRow(row, Recent(entries, players, difficulty, today), players)
  {
    var groups := Groups(entries, players, difficulty, today);
    forall row | row in groups
      ensures IsBestRow(row, Recent(entries, players, difficulty, today), players)
    {
      var k :| 0 <= k < |groups| && groups[k] == row;
    }
  }

  lemma GroupsCover(entries: seq<Entry>, players: map<int, Player>, difficulty: int, today: int)
    ensures forall e :: e in entries && Counts(e, players, difficulty, today) ==>
              exists row :: row in Groups(entries, players, difficulty, today) && row.player == e.player
  {
    var ws := Recent(entries, players, difficulty, today);
    var ps := Contenders(ws);
    var groups := Groups(entries, players, difficulty, today);
    forall e | e in entries && Counts(e, players, difficulty, today)
      ensures exists row :: row in groups && row.player == e.player
    {
      assert e in ws;
      assert e.player in ps;
      var k :| 0 <= k < |ps| && ps[k] == e.player;
      assert groups[k] in groups;
    }
  }

  lemma GroupsDistinct(entries: seq<Entry>, players: map<int, Player>, difficulty: int, today: int)
    ensures DistinctPlayers(Groups(entries, players, difficulty, today))
  {
  }

  /** ORDER BY best_score applied to the groups. */
  function Ranked(entries: seq<Entry>, players: map<int, Player>, difficulty: int, today: int)
    : seq<Row>
  {
    SortByScore(Groups(entries, players, difficulty, today))
  }

  /** Ordering changes neither which rows there are nor their distinct players. */
  lemma RankedSameRows(entries: seq<Entry>, players: map<int, Player>, difficulty: int, today: int)
    ensures var ranked := Ranked(entries, players, difficulty, today);
      && SortedByScore(ranked)
      && DistinctPlayers(ranked)
      && forall row :: row in ranked <==> row in Groups(entries, players, difficulty, today)
  {
    var groups := Groups(entries, players, difficulty, today);
    var ranked := Ranked(entries, players, difficulty, today);
    GroupsDistinct(entries, players, difficulty, today);
    SortDistinct(groups);
    SortSorted(groups);
    SortPermutes(groups);
    forall row ensures row in ranked <==> row in groups {
      assert row in ranked <==> row in multiset(ranked);
      assert row in groups <==> row in multiset(groups);
    }
  }

  lemma RankedBest(entries: seq<Entry>, players: map<int, Player>, difficulty: int, today: int)
    ensures forall row :: row in Ranked(entries, players, difficulty, today) ==>
              IsBestRow(row, Recent(entries, players, difficulty, today), players)
  {
    RankedSameRows(entries, players, difficulty, today);
    GroupsAreBest(entries, players, difficulty, today);
  }

  lemma RankedMinimal(entries: seq<Entry>, players: map<int, Player>, difficulty: int, today: int)
    ensures forall row :: row in Ranked(entries, players, difficulty, today) ==>
              IsMinimal(row, Recent(entries, players, difficulty, today))
  {
    RankedBest(entries, players, difficulty, today);
  }

  lemma RankedCover(entries: seq<Entry>, players: map<int, Player>, difficulty: int, today: int)
    ensures forall e :: e in Recent(entries, players, difficulty, today) ==>
              exists row :: row in Ranked(entries, players, difficulty, today) && row.player == e.player
  {
    RankedSameRows(entries, players, difficulty, today);
    GroupsCover(entries, players, difficulty, today);
  }

  /** LIMIT only drops rows. */
  lemma TakeKeeps(rows: seq<Row>, limit: int)
    ensures forall row :: row in Take(rows, limit) ==> row in rows
  {
    if 0 <= limit < |rows| {
      assert rows == rows[..limit] + rows[limit..];
    }
  }

  /** A prefix of a sorted list of distinct players is one too. */
  lemma TakeOrdered(rows: seq<Row>, limit: int)
    requires SortedByScore(rows) && DistinctPlayers(rows)
    ensures SortedByScore(Take(rows, limit)) && DistinctPlayers(Take(rows, limit))
    ensures 0 <= limit ==> |Take(rows, limit)| <= limit
  {
  }

  /** The rows the leaderboard query returns. */
  function TopScores(entries: seq<Entry>, players: map<int, Player>, difficulty: int, today: int,
                     limit: int): seq<Row>
  {
    Take(Ranked(entries, players, difficulty, today), limit)
  }

  /** Each row is a player of the query with their minimum recent score. */
  lemma {:induction false} TopScoresAreBest(entries: seq<Entry>, players: map<int, Player>,
                                            difficulty: int, today: int, limit: int)
    ensures var top := TopScores(entries, players, difficulty, today, limit);
      forall i :: 0 <= i < |top| ==>
        && top[i].player in players
        && top[i].who == players[top[i].player]
        && (exists e :: e in entries && Counts(e, players, difficulty, today)
                        && e.player == top[i].player && e.totalStrokes == top[i].score)
        && (forall e :: (e in entries && Counts(e, players, difficulty, today)
                         && e.player == top[i].player) ==> top[i].score <= e.totalStrokes)
  {
    var ranked := Ranked(entries, players, difficulty, today);
    var ws := Recent(entries, players, difficulty, today);
    var top := TopScores(entries, players, difficulty, today, limit);
    RankedBest(entries, players, difficulty, today);
    TakeKeeps(ranked, limit);
    forall i | 0 <= i < |top|
      ensures IsBestRow(top[i], ws, players)
    {
      assert top[i] in top;
    }
  }

  /** At most `limit` rows, distinct players, scores non-decreasing. */
  lemma {:induction false} TopScoresOrdered(entries: seq<Entry>, players: map<int, Player>,
                                            difficulty: int, today: int, limit: int)
    ensures var top := TopScores(entries, players, difficulty, today, limit);
      && (0 <= limit ==> |top| <= limit)
      && (forall i, j :: 0 <= i < j < |top| ==> top[i].player != top[j].player)
      && (forall i, j :: 0 <= i < j < |top| ==> top[i].score <= top[j].score)
  {
    RankedSameRows(entries, players, difficulty, today);
    TakeOrdered(Ranked(entries, players, difficulty, today), limit);
  }

  /** Every player with a counting entry is listed, unless the list is full of
      rows that score no worse than that entry. */
  lemma {:induction false} TopScoresComplete(entries: seq<Entry>, players: map<int, Player>,
                                             difficulty: int, today: int, limit: int)
    ensures var top := TopScores(entries, players, difficulty, today, limit);
      forall e :: e in entries && Counts(e, players, difficulty, today) ==>
        || (exists i :: 0 <= i < |top| && top[i].player == e.player)
        || (|top| == limit && forall i :: 0 <= i < |top| ==> top[i].score <= e.totalStrokes)
  {
    var ranked := Ranked(entries, players, difficulty, today);
    var ws := Recent(entries, players, difficulty, today);
    var top := TopScores(entries, players, difficulty, today, limit);
    RankedMinimal(entries, players, difficulty, today);
    RankedCover(entries, players, difficulty, today);
    SortSorted(Groups(entries, players, difficulty, today));
    forall e | e in entries && Counts(e, players, difficulty, today)
      ensures || (exists i :: 0 <= i < |top| && top[i].player == e.player)
              || (|top| == limit && forall i :: 0 <= i < |top| ==> top[i].score <= e.totalStrokes)
    {
      assert e in ws;
      var row :| row in ranked && row.player == e.player;
      var k :| 0 <= k < |ranked| && ranked[k] == row;
      assert IsMinimal(row, ws);
      if k < |top| {
        assert top[k] == row;
      } else {
        assert |top| == limit;
        forall i | 0 <= i < |top|
          ensures top[i].score <= e.totalStrokes
        {
          assert top[i] == ranked[i];
          assert ranked[i].score <= ranked[k].score;
        }
      }
    }
  }

  // ---------------------------------------------------------------------------
  // Ranking and labels
  // ---------------------------------------------------------------------------

  function DigitChar(d: nat): char
    requires d < 10
  {
    "0123456789"[d]
  }

  predicate AllDigits(s: string)
  {
    forall i :: 0 <= i < |s| ==> '0' <= s[i] <= '9'
  }

  /** Decimal text of `n`, as Python formats an int. */
  function NatToString(n: nat): (s: string)
    ensures |s| >= 1 && AllDigits(s)
  {
    if n < 10 then [DigitChar(n)] else NatToString(n / 10) + [DigitChar(n % 10)]
  }

  /** The number a string of decimal digits denotes. */
  function DigitsValue(s: string): nat
    requires AllDigits(s)
  {
    if s == [] then 0 else DigitsValue(s[..|s| - 1]) * 10 + (s[|s| - 1] as int - '0' as int)
  }

  lemma {:induction false} NatToStringRoundTrip(n: nat)
    ensures DigitsValue(NatToString(n)) == n
  {
    if n >= 10 {
      NatToStringRoundTrip(n / 10);
      var s := NatToString(n);
      assert s[..|s| - 1] == NatToString(n / 10);
    }
  }

  /** The label shown for a player with neither a username nor a full name. */
  function Placeholder(rank: nat): string
  {
    "Игрок " + NatToString(rank)
  }

  /** Different ranks get different placeholder labels, so two unnamed players
      on one board are told apart. */
  lemma PlaceholderInjective(a: nat, b: nat)
    requires Placeholder(a) == Placeholder(b)
    ensures a == b
  {
    assert NatToString(a) == Placeholder(a)[6..];
    assert NatToString(b) == Placeholder(b)[6..];
    NatToStringRoundTrip(a);
    NatToStringRoundTrip(b);
  }

  /** `username or full_name or placeholder`: the first non-empty one. */
  function Label(who: Player, rank: nat): (s: string)
    ensures s != ""
    ensures who.username != "" ==> s == who.username
    ensures who.username == "" && who.fullName != "" ==> s == who.fullName
    ensures who.username == "" && who.fullName == "" ==> s == Placeholder(rank)
  {
    if who.username != "" then who.username
    else if who.fullName != "" then who.fullName
    else Placeholder(rank)
  }

  /** `GET /api/get_leaderboard`: the ranked rows for a difficulty and limit. */
  method GetLeaderboard(entries: seq<Entry>, players: map<int, Player>, difficulty: int,
                        limit: int, today: int) returns (board: seq<Standing>)
    ensures var top := TopScores(entries, players, difficulty, today, limit);
      && |board| == |top|
      && forall i :: 0 <= i < |board| ==>
           board[i] == Standing(i + 1, Label(top[i].who, i + 1), top[i].score)
    ensures 0 <= limit ==> |board| <= limit
    ensures forall i, j :: 0 <= i < j < |board| ==> board[i].score <= board[j].score
    ensures forall i :: 0 <= i < |board| ==> board[i].rank == i + 1 && board[i].player != ""
    ensures var top := TopScores(entries, players, difficulty, today, limit);
      forall i, j :: 0 <= i < j < |board| && top[i].who == Player("", "") && top[j].who == Player("", "")
        ==> board[i].player != board[j].player
  {
    var top := TopScores(entries, players, difficulty, today, limit);
    TopScoresOrdered(entries, players, difficulty, today, limit);
    board := [];
    for i := 0 to |top|
      invariant |board| == i
      invariant forall k :: 0 <= k < i ==>
                  board[k] == Standing(k + 1, Label(top[k].who, k + 1), top[k].score)
    {
      var rank := i + 1;
      board := board + [Standing(rank, Label(top[i].who, rank), top[i].score)];
    }
    forall i, j | 0 <= i < j < |board| && top[i].who == Player("", "") && top[j].who == Player("", "")
      ensures board[i].player != board[j].player
    {
      if board[i].player == board[j].player {
        PlaceholderInjective(i + 1, j + 1);
      }
    }
  }
}
