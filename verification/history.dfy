/** The history screen's view model
    (src/viewModels/history/history.viewmodel.ts): the signed-in player's
    completed games ordered by time and then by difficulty, the summary
    statistics, and the numbered match list. The `dd/MM/yy` date text
    (date-fns) and navigation are not modelled. */
module History {
  import opened Options
  import opened Seqs
  import opened Text
  import opened Challenges
  import opened Sorting
  import opened Ranking
  import TimeFormat

  /** The file's own `formatTime`: the same `MM:SS` clock as the timer
      service's. */
  function FormatTime(seconds: nat): (r: string)
    ensures r == TimeFormat.FormatTime(seconds)
  {
    PadStart2(NatToString(seconds / 60)) + ":" + PadStart2(NatToString(seconds % 60))
  }

  /** `difficultyWeight[label] || 0`: the weight table is keyed by the
      difficulty labels; an unknown label weighs 0. */
  function WeightOf(name: string): nat {
    if name == "Difícil" then 3
    else if name == "Médio" then 2
    else if name == "Fácil" then 1
    else 0
  }

  /** The weight of a score's difficulty: harder weighs more, and every
      difficulty is in the table. */
  function DifficultyWeight(d: Difficulty): (w: nat)
    ensures 1 <= w <= 3
    ensures d == Hard <==> w == 3
    ensures d == Easy <==> w == 1
  {
    WeightOf(DifficultyName(d))
  }

  /** The comparator handed to `sort`: by time, then heavier first. */
  function Compare(a: GameScore, b: GameScore): int {
    if a.time != b.time then a.time - b.time
    else DifficultyWeight(b.difficulty) - DifficultyWeight(a.difficulty)
  }

  /** One number that orders scores as the comparator does: the time
      dominates, and among equal times the heavier difficulty is smaller. */
  function HistoryKey(s: GameScore): int {
    4 * s.time + (3 - DifficultyWeight(s.difficulty))
  }

  /** The key agrees with the comparator's sign on every pair of scores, so
      a stable sort by the key is the stable sort by the comparator. */
  lemma KeyMatchesCompare(a: GameScore, b: GameScore)
    ensures Compare(a, b) < 0 <==> HistoryKey(a) < HistoryKey(b)
    ensures Compare(a, b) == 0 <==> HistoryKey(a) == HistoryKey(b)
    ensures Compare(a, b) > 0 <==> HistoryKey(a) > HistoryKey(b)
  {
    var wa := DifficultyWeight(a.difficulty);
    var wb := DifficultyWeight(b.difficulty);
    if a.time < b.time {
      assert 4 * a.time + 4 <= 4 * b.time;
    } else if a.time > b.time {
      assert 4 * b.time + 4 <= 4 * a.time;
    }
  }

  /** The scores the player finished. */
  function PlayerCompleted(name: string): GameScore -> bool {
    (s: GameScore) => s.playerName == name && s.completed
  }

  /** `!userName`: no name, or the empty name. */
  predicate NoUser(userName: Option<string>) {
    userName.None? || userName.value == ""
  }

  /** `completedGames`: nothing without a user; otherwise the player's
      completed scores, sorted by the comparator. */
  function CompletedGames(userName: Option<string>, scores: seq<GameScore>): (r: seq<GameScore>)
    ensures |r| <= |scores|
    ensures NoUser(userName) ==> r == []
    ensures SortedBy(r, HistoryKey)
  {
    if NoUser(userName) then []
    else SortBy(Filter(PlayerCompleted(userName.value), scores), HistoryKey)
  }

  /** With a user, the list holds exactly that player's completed scores,
      each as often as in the store. */
  lemma CompletedGamesContents(userName: Option<string>, scores: seq<GameScore>)
    requires !NoUser(userName)
    ensures var r := CompletedGames(userName, scores);
            && (forall x :: multiset(r)[x] == if x.playerName == userName.value && x.completed
                                                then multiset(scores)[x] else 0)
            && (forall i :: 0 <= i < |r| ==> r[i].playerName == userName.value && r[i].completed)
  {
    CompletedGamesMultiset(userName, scores);
    CompletedGamesMembers(userName, scores);
  }

  lemma CompletedGamesMultiset(userName: Option<string>, scores: seq<GameScore>)
    requires !NoUser(userName)
    ensures var r := CompletedGames(userName, scores);
            forall x :: multiset(r)[x] == if x.playerName == userName.value && x.completed
                                           then multiset(scores)[x] else 0
  {
    var f := PlayerCompleted(userName.value);
    FilterMultiset(f, scores);
    assert multiset(CompletedGames(userName, scores)) == multiset(Filter(f, scores));
  }

  lemma CompletedGamesMembers(userName: Option<string>, scores: seq<GameScore>)
    requires !NoUser(userName)
    ensures var r := CompletedGames(userName, scores);
            forall i :: 0 <= i < |r| ==> r[i].playerName == userName.value && r[i].completed
  {
    var f := PlayerCompleted(userName.value);
    PermutedFilterSatisfies(f, scores, CompletedGames(userName, scores));
  }

  /** The list is fastest first, and among equal times the harder
      difficulty comes first. */
  lemma CompletedGamesOrder(userName: Option<string>, scores: seq<GameScore>)
    ensures var r := CompletedGames(userName, scores);
            forall i, j :: 0 <= i < j < |r| ==>
              r[i].time < r[j].time
              || (r[i].time == r[j].time
                  && DifficultyWeight(r[i].difficulty) >= DifficultyWeight(r[j].difficulty))
  {
    var r := CompletedGames(userName, scores);
    forall i, j | 0 <= i < j < |r|
      ensures r[i].time < r[j].time
              || (r[i].time == r[j].time
                  && DifficultyWeight(r[i].difficulty) >= DifficultyWeight(r[j].difficulty))
    {
      KeyMatchesCompare(r[i], r[j]);
    }
  }

  /** Scores the comparator cannot tell apart (same time, same difficulty)
      keep their store order. */
  lemma CompletedGamesStable(userName: Option<string>, scores: seq<GameScore>, k: int)
    requires !NoUser(userName)
    ensures Filter(HasKey(HistoryKey, k), CompletedGames(userName, scores))
            == Filter(HasKey(HistoryKey, k), Filter(PlayerCompleted(userName.value), scores))
  {
    SortStable(Filter(PlayerCompleted(userName.value), scores), HistoryKey, k);
  }

  datatype HistoryStats = HistoryStats(totalGames: nat, averageTime: string)

  /** `completedGames.reduce((sum, score) => sum + score.time, 0)`. */
  function TotalTime(games: seq<GameScore>): nat {
    if |games| == 0 then 0 else TotalTime(games[..|games| - 1]) + games[|games| - 1].time
  }

  /** `stats`: no games gives `{0, "00:00"}`; otherwise the count and the
      floor of the mean time as a clock. */
  function Stats(games: seq<GameScore>): (r: HistoryStats)
    ensures r.totalGames == |games|
    ensures |games| == 0 ==> r.averageTime == "00:00"
    ensures |games| > 0 ==> r.averageTime == FormatTime(TotalTime(games) / |games|)
  {
    if |games| == 0 then HistoryStats(0, "00:00")
    else HistoryStats(|games|, FormatTime(TotalTime(games) / |games|))
  }

  /** The empty-history text is the clock of zero seconds. */
  lemma EmptyAverageIsZeroClock()
    ensures Stats([]).averageTime == FormatTime(0)
  {
    assert NatToString(0) == "0";
  }

  /** Every time lies in [lo, hi], so the total lies between n·lo and n·hi. */
  lemma {:induction false} TotalTimeBounds(games: seq<GameScore>, lo: nat, hi: nat)
    requires forall i :: 0 <= i < |games| ==> lo <= games[i].time <= hi
    ensures |games| * lo <= TotalTime(games) <= |games| * hi
    decreases |games|
  {
    if |games| > 0 {
      var n := |games| - 1;
      TotalTimeBounds(games[..n], lo, hi);
      assert |games| * lo == n * lo + lo;
      assert |games| * hi == n * hi + hi;
    }
  }

  /** The average shown reads back as the floor of the mean:
      avg · n <= total < (avg + 1) · n. */
  lemma AverageTimeIsFloorMean(games: seq<GameScore>)
    requires |games| > 0
    ensures var avg := TotalTime(games) / |games|;
            && TimeFormat.ParseClock(Stats(games).averageTime) == Some(avg)
            && avg * |games| <= TotalTime(games) < (avg + 1) * |games|
  {
    TimeFormat.ClockRoundTrip(TotalTime(games) / |games|);
    DivBounds(TotalTime(games), |games|);
  }

  /** The average lies between the fastest and the slowest game. */
  lemma AverageTimeWithinRange(games: seq<GameScore>, lo: nat, hi: nat)
    requires |games| > 0
    requires forall i :: 0 <= i < |games| ==> lo <= games[i].time <= hi
    ensures lo <= TotalTime(games) / |games| <= hi
  {
    TotalTimeBounds(games, lo, hi);
    QuotientBetween(TotalTime(games), |games|, lo, hi);
  }

  /** n·lo <= a <= n·hi puts a / n in [lo, hi]. */
  lemma QuotientBetween(a: nat, n: nat, lo: nat, hi: nat)
    requires n > 0 && n * lo <= a <= n * hi
    ensures lo <= a / n <= hi
  {
    var q := a / n;
    DivBounds(a, n);
    if q < lo {
      MulMonotone(q + 1, lo, n);
    }
    if q > hi {
      MulMonotone(hi + 1, q, n);
    }
  }

  /** The quotient brackets the dividend. */
  lemma DivBounds(a: nat, n: nat)
    requires n > 0
    ensures (a / n) * n <= a < (a / n + 1) * n
  {
    assert a == (a / n) * n + a % n;
  }

  lemma MulMonotone(x: nat, y: nat, n: nat)
    requires x <= y
    ensures x * n <= y * n
  {
  }

  /** One row of the match list (the date text is not modelled). */
  datatype FormattedMatch = FormattedMatch(
    id: string,
    title: string,
    position: nat,
    time: string,
    difficulty: Difficulty)

  /** `formattedMatches`: one row per game, in list order. */
  function FormattedMatches(games: seq<GameScore>): (r: seq<FormattedMatch>)
    ensures |r| == |games|
    ensures forall i :: 0 <= i < |r| ==>
              r[i].id == games[i].id && r[i].title == games[i].category
              && r[i].difficulty == games[i].difficulty
  {
    seq(|games|, i requires 0 <= i < |games| =>
      FormattedMatch(games[i].id, games[i].category, i + 1, FormatTime(games[i].time), games[i].difficulty))
  }

  /** The positions shown in a match list. */
  function Positions(r: seq<FormattedMatch>): set<nat> {
    set i | 0 <= i < |r| :: r[i].position
  }

  /** The positions are exactly 1..n, each row's position is one more than
      the row before, and each row's time reads back as the game's time. */
  lemma FormattedMatchesSpec(games: seq<GameScore>)
    ensures var r := FormattedMatches(games);
            && (forall p :: p in Positions(r) <==> 1 <= p <= |games|)
            && (forall i :: 0 < i < |r| ==> r[i].position == r[i - 1].position + 1)
            && (forall i :: 0 <= i < |r| ==> TimeFormat.ParseClock(r[i].time) == Some(games[i].time))
  {
    FormattedPositionsExact(games);
    FormattedTimesReadBack(games);
  }

  /** Row i shows position i + 1, so the positions are exactly 1..n. */
  lemma FormattedPositionsExact(games: seq<GameScore>)
    ensures var r := FormattedMatches(games);
            && (forall i :: 0 <= i < |r| ==> r[i].position == i + 1)
            && (forall p :: p in Positions(r) <==> 1 <= p <= |games|)
  {
    var r := FormattedMatches(games);
    var shown := Positions(r);
    forall p | 1 <= p <= |games|
      ensures p in shown
    {
      assert r[p - 1].position == p;
    }
  }

  /** Each row's time reads back as the game's time. */
  lemma FormattedTimesReadBack(games: seq<GameScore>)
    ensures var r := FormattedMatches(games);
            forall i :: 0 <= i < |r| ==> TimeFormat.ParseClock(r[i].time) == Some(games[i].time)
  {
    var r := FormattedMatches(games);
    forall i | 0 <= i < |r|
      ensures TimeFormat.ParseClock(r[i].time) == Some(games[i].time)
    {
      TimeFormat.ClockRoundTrip(games[i].time);
    }
  }
}
