/** The leaderboard: every statistic record with its player's username,
    highest rating first. The ordering is LINQ's OrderByDescending, a stable
    sort, so records of equal rating keep the order the store listed them in. */
module Leaderboard {
  import opened Records
  import opened Store
  import opened AuthDto

  // ---- OrderByDescending(p => p.Rating) ---------------------------------------

  predicate RatingsDescend(s: seq<PlayerStatistic>) {
    forall i, j :: 0 <= i < j < |s| ==> s[i].rating >= s[j].rating
  }

  /** Puts x in front of the first record whose rating it reaches, so ahead
      of every record of its own rating. */
  function InsertByRating(x: PlayerStatistic, s: seq<PlayerStatistic>): (r: seq<PlayerStatistic>)
    ensures multiset(r) == multiset(s) + multiset{x}
  {
    if s == [] || x.rating >= s[0].rating then [x] + s
    else
      assert s == [s[0]] + s[1..];
      [s[0]] + InsertByRating(x, s[1..])
  }

  /** The records by rating, highest first; equal ratings in their input order. */
  function OrderByRatingDescending(s: seq<PlayerStatistic>): (r: seq<PlayerStatistic>)
    ensures multiset(r) == multiset(s)
  {
    if s == [] then []
    else
      assert s == [s[0]] + s[1..];
      InsertByRating(s[0], OrderByRatingDescending(s[1..]))
  }

  /** The records of rating v, in the order of s. */
  function WithRating(s: seq<PlayerStatistic>, v: int): seq<PlayerStatistic> {
    if s == [] then []
    else (if s[0].rating == v then [s[0]] else []) + WithRating(s[1..], v)
  }

  /** Every record of an insertion result is x or a record of s. */
  lemma InsertedFrom(x: PlayerStatistic, s: seq<PlayerStatistic>, k: int)
    requires 0 <= k < |InsertByRating(x, s)|
    ensures InsertByRating(x, s)[k] == x || InsertByRating(x, s)[k] in s
  {
    var r := InsertByRating(x, s);
    assert r[k] in multiset(r);
  }

  lemma {:induction false} InsertKeepsDescending(x: PlayerStatistic, s: seq<PlayerStatistic>)
    requires RatingsDescend(s)
    ensures RatingsDescend(InsertByRating(x, s))
  {
    var r := InsertByRating(x, s);
    if s == [] || x.rating >= s[0].rating {
      forall i, j | 0 <= i < j < |r| ensures r[i].rating >= r[j].rating {
        assert r[j] == s[j - 1];
        if i > 0 {
          assert r[i] == s[i - 1];
        }
      }
    } else {
      var rest := InsertByRating(x, s[1..]);
      InsertKeepsDescending(x, s[1..]);
      assert r == [s[0]] + rest;
      forall i, j | 0 <= i < j < |r| ensures r[i].rating >= r[j].rating {
        assert r[j] == rest[j - 1];
        if i > 0 {
          assert r[i] == rest[i - 1];
        } else {
          InsertedFrom(x, s[1..], j - 1);
        }
      }
    }
  }

  /** The result is sorted, highest rating first. */
  lemma {:induction false} OrderIsDescending(s: seq<PlayerStatistic>)
    ensures RatingsDescend(OrderByRatingDescending(s))
  {
    if s != [] {
      OrderIsDescending(s[1..]);
      InsertKeepsDescending(s[0], OrderByRatingDescending(s[1..]));
    }
  }

  lemma ConsWithRating(x: PlayerStatistic, s: seq<PlayerStatistic>, v: int)
    ensures WithRating([x] + s, v) == (if x.rating == v then [x] else []) + WithRating(s, v)
  {
    assert ([x] + s)[1..] == s;
  }

  lemma {:induction false} InsertKeepsTies(x: PlayerStatistic, s: seq<PlayerStatistic>, v: int)
    ensures WithRating(InsertByRating(x, s), v) == WithRating([x] + s, v)
  {
    if !(s == [] || x.rating >= s[0].rating) {
      var rest := s[1..];
      assert s == [s[0]] + rest;
      var h0 := if s[0].rating == v then [s[0]] else [];
      var hx := if x.rating == v then [x] else [];
      assert h0 + hx == hx + h0;
      calc {
        WithRating(InsertByRating(x, s), v);
        WithRating([s[0]] + InsertByRating(x, rest), v);
        { ConsWithRating(s[0], InsertByRating(x, rest), v); }
        h0 + WithRating(InsertByRating(x, rest), v);
        { InsertKeepsTies(x, rest, v); }
        h0 + WithRating([x] + rest, v);
        { ConsWithRating(x, rest, v); }
        h0 + (hx + WithRating(rest, v));
        hx + (h0 + WithRating(rest, v));
        { ConsWithRating(s[0], rest, v); }
        hx + WithRating(s, v);
        { ConsWithRating(x, s, v); }
        WithRating([x] + s, v);
      }
    }
  }

  /** The sort is stable: for every rating, the records of that rating come
      out in the order they went in. */
  lemma {:induction false} OrderKeepsTies(s: seq<PlayerStatistic>, v: int)
    ensures WithRating(OrderByRatingDescending(s), v) == WithRating(s, v)
  {
    if s != [] {
      OrderKeepsTies(s[1..], v);
      InsertKeepsTies(s[0], OrderByRatingDescending(s[1..]), v);
      ConsWithRating(s[0], OrderByRatingDescending(s[1..]), v);
    }
  }

  // ---- GetLeaderboard --------------------------------------------------------

  datatype LeaderboardResponse =
    | NoStatistics          // the statistics table is empty
    | PlayerMissing         // a record's player could not be found
    | Board(entries: seq<LeaderboardInfo>)

  /** The row shown for one record. */
  function EntryOf(t: Tables, s: PlayerStatistic): (e: LeaderboardInfo)
    requires s.idPlayer in t.players
    ensures e.username == t.players[s.idPlayer].username && e.rating == s.rating
    ensures e.totalMatches == s.totalMatches && e.wins == s.wins && e.losses == s.losses
  {
    LeaderboardInfo(t.players[s.idPlayer].username, s.rating, s.totalMatches, s.wins, s.losses)
  }

  /** GetLeaderboard over the records as the store listed them. */
  function LeaderboardSpec(t: Tables, rows: seq<PlayerStatistic>): LeaderboardResponse {
    if |rows| == 0 then NoStatistics
    else
      var sorted := OrderByRatingDescending(rows);
      if forall i :: 0 <= i < |sorted| ==> sorted[i].idPlayer in t.players then
        Board(seq(|sorted|, i requires 0 <= i < |sorted| => EntryOf(t, sorted[i])))
      else PlayerMissing
  }

  /** The distinct player ids of a list of records. */
  function IdsOf(rows: seq<PlayerStatistic>): set<int> {
    if rows == [] then {} else IdsOf(rows[..|rows| - 1]) + {rows[|rows| - 1].idPlayer}
  }

  lemma {:induction false} IdsOfMembers(rows: seq<PlayerStatistic>, id: int)
    ensures id in IdsOf(rows) <==> exists i :: 0 <= i < |rows| && rows[i].idPlayer == id
  {
    if rows != [] {
      var front := rows[..|rows| - 1];
      IdsOfMembers(front, id);
      if exists i :: 0 <= i < |front| && front[i].idPlayer == id {
        var i :| 0 <= i < |front| && front[i].idPlayer == id;
        assert rows[i].idPlayer == id;
      }
    }
  }

  lemma {:induction false} DistinctIdsCount(rows: seq<PlayerStatistic>)
    requires forall i, j :: 0 <= i < j < |rows| ==> rows[i].idPlayer != rows[j].idPlayer
    ensures |IdsOf(rows)| == |rows|
  {
    if rows != [] {
      var front := rows[..|rows| - 1];
      DistinctIdsCount(front);
      IdsOfMembers(front, rows[|rows| - 1].idPlayer);
    }
  }

  /** An enumeration of a consistent statistics table has one row per stored record. */
  lemma EnumerationCount(t: Tables, rows: seq<PlayerStatistic>)
    requires Consistent(t) && EnumeratesStatistics(t, rows)
    ensures |rows| == |t.statistics|
  {
    forall id ensures id in t.statistics <==> id in IdsOf(rows) {
      IdsOfMembers(rows, id);
      if id in t.statistics {
        var k :| 0 <= k < |rows| && rows[k] == t.statistics[id];
        assert rows[k].idPlayer == id;
      }
    }
    assert t.statistics.Keys == IdsOf(rows);
    DistinctIdsCount(rows);
  }

  /** The response is NoStatistics exactly when the statistics table is empty. */
  lemma LeaderboardEmpty(t: Tables, rows: seq<PlayerStatistic>)
    requires EnumeratesStatistics(t, rows)
    ensures LeaderboardSpec(t, rows) == NoStatistics <==> t.statistics == map[]
  {
    if t.statistics != map[] {
      assert t.statistics.Keys != {};
      SomeKey(t.statistics.Keys);
      var id :| id in t.statistics;
      assert t.statistics[id] in rows;
    }
    if rows != [] {
      assert rows[0].idPlayer in t.statistics;
    }
  }

  /** The response is PlayerMissing exactly when some stored record names a
      player that is not stored, so never in a consistent database. */
  lemma LeaderboardPlayerMissing(t: Tables, rows: seq<PlayerStatistic>)
    requires EnumeratesStatistics(t, rows)
    ensures LeaderboardSpec(t, rows) == PlayerMissing <==>
            exists id :: id in t.statistics && t.statistics[id].idPlayer !in t.players
    ensures Consistent(t) ==> LeaderboardSpec(t, rows) != PlayerMissing
  {
    var sorted := OrderByRatingDescending(rows);
    if LeaderboardSpec(t, rows) == PlayerMissing {
      var i :| 0 <= i < |sorted| && sorted[i].idPlayer !in t.players;
      assert sorted[i] in multiset(sorted);
      assert sorted[i] in rows;
      var k :| 0 <= k < |rows| && rows[k] == sorted[i];
      assert t.statistics[rows[k].idPlayer].idPlayer !in t.players;
    }
    if exists id :: id in t.statistics && t.statistics[id].idPlayer !in t.players {
      var id :| id in t.statistics && t.statistics[id].idPlayer !in t.players;
      assert t.statistics[id] in multiset(rows);
      assert t.statistics[id] in sorted;
    }
  }

  /** Every stored record has a row on the board. */
  lemma BoardCoversRecords(t: Tables, rows: seq<PlayerStatistic>, id: int)
    requires EnumeratesStatistics(t, rows) && LeaderboardSpec(t, rows).Board? && id in t.statistics
    ensures var e := LeaderboardSpec(t, rows).entries;
            t.statistics[id].idPlayer in t.players
            && exists i :: 0 <= i < |e| && e[i] == EntryOf(t, t.statistics[id])
  {
    var sorted := OrderByRatingDescending(rows);
    var e := LeaderboardSpec(t, rows).entries;
    assert t.statistics[id] in multiset(rows);
    assert t.statistics[id] in sorted;
    var i :| 0 <= i < |sorted| && sorted[i] == t.statistics[id];
    assert e[i] == EntryOf(t, sorted[i]);
  }

  /** Every row of the board shows a stored record. */
  lemma BoardShowsRecords(t: Tables, rows: seq<PlayerStatistic>, i: int)
    requires EnumeratesStatistics(t, rows) && LeaderboardSpec(t, rows).Board?
    requires 0 <= i < |LeaderboardSpec(t, rows).entries|
    ensures var e := LeaderboardSpec(t, rows).entries;
            exists id :: id in t.statistics && t.statistics[id].idPlayer in t.players
                         && e[i] == EntryOf(t, t.statistics[id])
  {
    var sorted := OrderByRatingDescending(rows);
    var e := LeaderboardSpec(t, rows).entries;
    assert sorted[i] in multiset(sorted);
    assert sorted[i] in rows;
    var k :| 0 <= k < |rows| && rows[k] == sorted[i];
    assert e[i] == EntryOf(t, t.statistics[rows[k].idPlayer]);
  }

  /** A board lists every stored record once, each with its player's name
      and counters, highest rating first. */
  lemma LeaderboardBoard(t: Tables, rows: seq<PlayerStatistic>)
    requires Consistent(t) && EnumeratesStatistics(t, rows) && LeaderboardSpec(t, rows).Board?
    ensures var e := LeaderboardSpec(t, rows).entries;
            && |e| == |t.statistics|
            && (forall i, j :: 0 <= i < j < |e| ==> e[i].rating >= e[j].rating)
  {
    var sorted := OrderByRatingDescending(rows);
    var e := LeaderboardSpec(t, rows).entries;
    EnumerationCount(t, rows);
    OrderIsDescending(rows);
    assert |sorted| == |multiset(sorted)| == |multiset(rows)| == |rows|;
    forall i, j | 0 <= i < j < |e| ensures e[i].rating >= e[j].rating {
      assert e[i] == EntryOf(t, sorted[i]) && e[j] == EntryOf(t, sorted[j]);
    }
  }

  class LeaderboardController {
    const db: GameDb

    constructor (db: GameDb)
      ensures this.db == db
    {
      this.db := db;
    }

    /** GetLeaderboard: `rows` is the order in which the store listed the records. */
    method GetLeaderboard() returns (r: LeaderboardResponse, ghost rows: seq<PlayerStatistic>)
      requires db.Valid()
      ensures EnumeratesStatistics(db.State(), rows)
      ensures r == LeaderboardSpec(db.State(), rows)
      ensures r.NoStatistics? <==> db.statistics == map[]
      ensures r.Board? ==> |r.entries| == |db.statistics|
                           && forall i, j :: 0 <= i < j < |r.entries| ==> r.entries[i].rating >= r.entries[j].rating
    {
      var list := db.StatisticsList();
      rows := list;
      LeaderboardEmpty(db.State(), rows);
      if |list| <= 0 {
        return NoStatistics, rows;
      }
      var sorted := OrderByRatingDescending(list);
      var result: seq<LeaderboardInfo> := [];
      var i := 0;
      while i < |sorted|
        invariant 0 <= i <= |sorted|
        invariant forall k :: 0 <= k < i ==> sorted[k].idPlayer in db.players
        invariant |result| == i
        invariant forall k :: 0 <= k < i ==> result[k] == EntryOf(db.State(), sorted[k])
      {
        var s := sorted[i];
        if s.idPlayer !in db.players {
          return PlayerMissing, rows;
        }
        result := result + [LeaderboardInfo(db.players[s.idPlayer].username, s.rating, s.totalMatches, s.wins, s.losses)];
        i := i + 1;
      }
      r := Board(result);
      LeaderboardBoard(db.State(), rows);
    }
  }
}
