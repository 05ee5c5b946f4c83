/** Saving the result of a match: the winner's and the loser's statistic
    records get their counters incremented and their ratings moved by an
    Elo-like formula. The formula is evaluated in doubles; its only
    inputs that vary are the integer exponent n = (w - l) / 400, truncated
    toward zero, so the double result is a function of n given here as a
    table, and the exact rational value is proved to agree with it for n <= 16. */
module MatchRating {
  import opened Common
  import opened Records
  import opened Store
  import opened AuthDto

  /** The K factor. */
  const K: int := 32
  /** The rating difference that counts as one power of ten. */
  const RatingScale: int := 400

  function Pow10(n: nat): (p: nat)
    ensures p >= 1
  {
    if n == 0 then 1 else 10 * Pow10(n - 1)
  }

  lemma {:induction false} Pow10AtLeast100(n: nat)
    requires n >= 2
    ensures Pow10(n) >= 100
  {
    if n > 2 {
      Pow10AtLeast100(n - 1);
    }
  }

  /** The exponent of the winner's expected score: winner minus loser in
      whole multiples of 400, by C# integer division. */
  function Exponent(winnerRating: int, loserRating: int): int {
    TruncDiv(winnerRating - loserRating, RatingScale)
  }

  /** (int)(K * (1 - e1)) with e1 = 1 / (1 + 10^n), as IEEE doubles give it.
      For n >= 17 the double 1 - e1 rounds to 1 and the gain is the whole K. */
  function Gain(n: int): int {
    if n <= -2 then 0
    else if n == -1 then 2
    else if n == 0 then 16
    else if n == 1 then 29
    else if n <= 16 then 31
    else 32
  }

  /** K * (1 - 1 / (1 + 10^n)) in exact rational arithmetic, as a
      numerator and a positive denominator: K * 10^n / (10^n + 1) for
      n >= 0 and K / (10^-n + 1) below. */
  function ExactGain(n: int): (q: (int, int))
    ensures q.1 > 0
  {
    if n >= 0 then (K * Pow10(n), Pow10(n) + 1) else (K, Pow10(-n) + 1)
  }

  /** d is the exact quotient num / den truncated: what the cast to int keeps. */
  predicate IsIntegerPart(d: int, q: (int, int)) {
    d * q.1 <= q.0 < d * q.1 + q.1
  }

  /** The table is the exact value, truncated, wherever doubles do not
      round 1 - e1 to 1. */
  lemma GainIsExactUpTo16(n: int)
    requires n <= 16
    ensures IsIntegerPart(Gain(n), ExactGain(n))
  {
    if n <= -2 {
      Pow10AtLeast100(-n);
    } else if n >= 2 {
      Pow10AtLeast100(n);
    }
  }

  /** From n = 2 on the exact value truncates to 31 and never to K: the 32
      of the table for n >= 17 is the rounding of 1 - e1 to 1. */
  lemma ExactGainStaysBelowK(n: int)
    requires n >= 2
    ensures IsIntegerPart(31, ExactGain(n)) && !IsIntegerPart(K, ExactGain(n))
  {
    Pow10AtLeast100(n);
  }

  /** CalculatingTheRating: the winner's and the loser's new ratings. The
      winner's change is (int)r1; the loser's is (int)r2, and r2 is exactly
      -r1 because e2 is computed as 1 - e1, so the loser loses what the
      winner gains. */
  function RatingsAfterMatch(winnerRating: int, loserRating: int): (int, int) {
    var d := Gain(Exponent(winnerRating, loserRating));
    (winnerRating + d, loserRating - d)
  }

  /** The gain grows with the exponent. */
  lemma GainMonotone(n1: int, n2: int)
    requires n1 <= n2
    ensures Gain(n1) <= Gain(n2)
  {
  }

  /** The ratings are zero-sum, the winner gains between 0 and K, and the
      change depends only on the difference of the pre-match ratings. */
  lemma RatingsZeroSum(w: int, l: int)
    ensures var r := RatingsAfterMatch(w, l);
            && r.0 + r.1 == w + l
            && 0 <= r.0 - w <= K && r.0 - w == l - r.1
            && r.0 - w == RatingsAfterMatch(w + 1, l + 1).0 - (w + 1)
  {
  }

  /** Ratings less than 400 apart move by exactly 16. */
  lemma CloseRatingsMoveBy16(w: int, l: int)
    requires -RatingScale < w - l < RatingScale
    ensures RatingsAfterMatch(w, l) == (w + 16, l - 16)
  {
  }

  /** The exponent is winner minus loser, so a stronger winner gains at
      least as much as a weaker one against the same loser: the reverse of
      the usual Elo rule. */
  lemma StrongerWinnerGainsMore(w1: int, w2: int, l: int)
    requires w1 <= w2
    ensures RatingsAfterMatch(w1, l).0 - w1 <= RatingsAfterMatch(w2, l).0 - w2
  {
    ExponentMonotone(w1, w2, l);
    GainMonotone(Exponent(w1, l), Exponent(w2, l));
  }

  lemma ExponentMonotone(w1: int, w2: int, l: int)
    requires w1 <= w2
    ensures Exponent(w1, l) <= Exponent(w2, l)
  {
  }

  /** An upset pays less than a win by the favourite: beating a player 400
      points stronger earns 2, beating one 400 points weaker earns 29. */
  lemma UpsetGainsLess()
    ensures RatingsAfterMatch(1000, 1400) == (1002, 1398)
    ensures RatingsAfterMatch(1400, 1000) == (1429, 971)
  {
  }

  /** Nothing keeps a rating from going below zero. */
  lemma LoserRatingMayGoNegative()
    ensures RatingsAfterMatch(0, 0) == (16, -16)
  {
  }

  // ---- SaveResultMath --------------------------------------------------------

  datatype MatchOutcome =
    | InvalidPlayers       // the two ids are equal, or the winner is neither
    | StatisticsMissing    // a statistic record of the two players is missing
    | ResultSaved

  datatype MatchStep = MatchStep(tables: Tables, outcome: MatchOutcome)

  /** The winner's record after the match: one more match, one more win, the new rating. */
  function Won(s: PlayerStatistic, rating: int): PlayerStatistic {
    s.(totalMatches := s.totalMatches + 1, wins := s.wins + 1, rating := rating)
  }

  /** The loser's record after the match: one more match, one more loss, the new rating. */
  function Lost(s: PlayerStatistic, rating: int): PlayerStatistic {
    s.(totalMatches := s.totalMatches + 1, losses := s.losses + 1, rating := rating)
  }

  predicate ValidPlayers(req: ResultMatchInfo) {
    req.idPlayer1 != req.idPlayer2 && (req.idPlayerWinner == req.idPlayer1 || req.idPlayerWinner == req.idPlayer2)
  }

  /** The id of the player who lost: the one of the two who is not the winner. */
  function LoserId(req: ResultMatchInfo): int {
    if req.idPlayer1 == req.idPlayerWinner then req.idPlayer2 else req.idPlayer1
  }

  /** SaveResultMath: both records are found by the players' ids, updated
      and saved together; the ratings are computed from the ratings before
      the match. */
  function SaveResultSpec(t: Tables, req: ResultMatchInfo): MatchStep {
    if !ValidPlayers(req) then MatchStep(t, InvalidPlayers)
    else
      var w, l := req.idPlayerWinner, LoserId(req);
      if w !in t.statistics || l !in t.statistics then MatchStep(t, StatisticsMissing)
      else
        var r := RatingsAfterMatch(t.statistics[w].rating, t.statistics[l].rating);
        MatchStep(t.(statistics := t.statistics[w := Won(t.statistics[w], r.0)][l := Lost(t.statistics[l], r.1)]),
                  ResultSaved)
  }

  /** A rejected request or a missing record writes nothing. A saved result
      changes the two records only: the winner has one more match and one
      more win, the loser one more match and one more loss, the other
      counters stay, and the sum of the two ratings is unchanged. */
  lemma SaveResultOutcomes(t: Tables, req: ResultMatchInfo)
    ensures var s := SaveResultSpec(t, req);
            && (s.outcome == InvalidPlayers <==> !ValidPlayers(req))
            && (s.outcome == StatisticsMissing <==>
                  ValidPlayers(req) && (req.idPlayer1 !in t.statistics || req.idPlayer2 !in t.statistics))
            && (s.outcome != ResultSaved ==> s.tables == t)
            && (s.outcome == ResultSaved ==>
                  var w, l := req.idPlayerWinner, LoserId(req);
                  var ws, ls := t.statistics[w], t.statistics[l];
                  var ws', ls' := s.tables.statistics[w], s.tables.statistics[l];
                  && w != l && {w, l} == {req.idPlayer1, req.idPlayer2}
                  && s.tables == t.(statistics := s.tables.statistics)
                  && s.tables.statistics.Keys == t.statistics.Keys
                  && (forall id :: id in t.statistics && id != w && id != l ==> s.tables.statistics[id] == t.statistics[id])
                  && ws'.totalMatches == ws.totalMatches + 1 && ws'.wins == ws.wins + 1 && ws'.losses == ws.losses
                  && ls'.totalMatches == ls.totalMatches + 1 && ls'.losses == ls.losses + 1 && ls'.wins == ls.wins
                  && ws'.idPlayer == ws.idPlayer && ls'.idPlayer == ls.idPlayer
                  && ws'.rating + ls'.rating == ws.rating + ls.rating
                  && 0 <= ws'.rating - ws.rating <= K)
  {
    var s := SaveResultSpec(t, req);
    if s.outcome == ResultSaved {
      RatingsZeroSum(t.statistics[req.idPlayerWinner].rating, t.statistics[LoserId(req)].rating);
    }
  }

  /** Wins plus losses stays the number of matches in every record. */
  lemma SaveResultKeepsCountersAgree(t: Tables, req: ResultMatchInfo)
    requires forall id :: id in t.statistics ==> CountersAgree(t.statistics[id])
    ensures var t' := SaveResultSpec(t, req).tables;
            forall id :: id in t'.statistics ==> CountersAgree(t'.statistics[id])
  {
  }

  lemma SaveResultPreservesConsistent(t: Tables, req: ResultMatchInfo)
    requires Consistent(t)
    ensures Consistent(SaveResultSpec(t, req).tables)
  {
    var s := SaveResultSpec(t, req);
    if s.outcome == ResultSaved {
      var w, l := req.idPlayerWinner, LoserId(req);
      var r := RatingsAfterMatch(t.statistics[w].rating, t.statistics[l].rating);
      UpdateStatisticsConsistent(t, Won(t.statistics[w], r.0), Lost(t.statistics[l], r.1));
    }
  }

  class MatchController {
    const db: GameDb

    constructor (db: GameDb)
      ensures this.db == db
    {
      this.db := db;
    }

    /** SaveResultMath. */
    method SaveResultMatch(req: ResultMatchInfo) returns (outcome: MatchOutcome)
      requires db.Valid()
      modifies db
      ensures db.Valid()
      ensures var s := SaveResultSpec(old(db.State()), req);
              db.State() == s.tables && outcome == s.outcome
    {
      ghost var t := db.State();
      if req.idPlayer1 == req.idPlayer2
         || (req.idPlayerWinner != req.idPlayer1 && req.idPlayerWinner != req.idPlayer2) {
        return InvalidPlayers;
      }
      var winnerId, loserId;
      if req.idPlayer1 == req.idPlayerWinner {
        winnerId, loserId := req.idPlayer1, req.idPlayer2;
      } else {
        winnerId, loserId := req.idPlayer2, req.idPlayer1;
      }
      if winnerId !in db.statistics || loserId !in db.statistics {
        return StatisticsMissing;
      }
      var winner, loser := db.statistics[winnerId], db.statistics[loserId];
      winner := winner.(totalMatches := winner.totalMatches + 1, wins := winner.wins + 1);
      loser := loser.(totalMatches := loser.totalMatches + 1, losses := loser.losses + 1);
      var ratings := RatingsAfterMatch(winner.rating, loser.rating);
      winner := winner.(rating := ratings.0);
      loser := loser.(rating := ratings.1);
      db.SaveStatistics(winner, loser);
      SaveResultPreservesConsistent(t, req);
      outcome := ResultSaved;
    }
  }
}
