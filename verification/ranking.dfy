/** The ranking store (src/models/score.model.ts, src/store/ranking.ts):
    the saved scores kept in ascending time order, the filtered view, and
    the queries over them. Persistence is not modelled; dates are opaque
    timestamps and the score id is the decimal rendering of the timestamp,
    both passed in by the caller. */
module Ranking {
  import opened Options
  import opened Seqs
  import opened Text
  import opened Challenges
  import opened Game
  import opened Sorting

  datatype GameScore = GameScore(
    id: string,
    playerName: string,
    category: string,
    difficulty: Difficulty,
    time: nat,
    moves: nat,
    date: int,
    completed: bool)

  datatype DateRange = DateRange(start: int, end: int)

  /** Absent filters are `None`; a category filter of "" is present but,
      being falsy, inactive. */
  datatype RankingFilters = RankingFilters(
    category: Option<string>,
    difficulty: Option<Difficulty>,
    dateRange: Option<DateRange>)

  const NoFilters: RankingFilters := RankingFilters(None, None, None)

  datatype RankingState = RankingState(
    scores: seq<GameScore>,
    filteredScores: seq<GameScore>,
    activeFilters: RankingFilters,
    isLoading: bool)

  const InitialRanking: RankingState := RankingState([], [], NoFilters, false)

  function ScoreTime(s: GameScore): int {
    s.time
  }

  /* ---------------------------------------------------------------------
     The three filters, each true of every score when it is inactive.
     --------------------------------------------------------------------- */

  predicate CategoryActive(f: RankingFilters) {
    f.category.Some? && f.category.value != ""
  }

  predicate AnyFilterActive(f: RankingFilters) {
    CategoryActive(f) || f.difficulty.Some? || f.dateRange.Some?
  }

  predicate CategoryOk(f: RankingFilters, s: GameScore) {
    CategoryActive(f) ==> s.category == f.category.value
  }

  predicate DifficultyOk(f: RankingFilters, s: GameScore) {
    f.difficulty.Some? ==> s.difficulty == f.difficulty.value
  }

  /** The date range includes both of its ends. */
  predicate DateOk(f: RankingFilters, s: GameScore) {
    f.dateRange.Some? ==> f.dateRange.value.start <= s.date <= f.dateRange.value.end
  }

  predicate MatchesFilters(f: RankingFilters, s: GameScore) {
    CategoryOk(f, s) && DifficultyOk(f, s) && DateOk(f, s)
  }

  function CategoryTest(f: RankingFilters): GameScore -> bool {
    (s: GameScore) => CategoryOk(f, s)
  }

  function DifficultyTest(f: RankingFilters): GameScore -> bool {
    (s: GameScore) => DifficultyOk(f, s)
  }

  function DateTest(f: RankingFilters): GameScore -> bool {
    (s: GameScore) => DateOk(f, s)
  }

  function CategoryDifficultyTest(f: RankingFilters): GameScore -> bool {
    (s: GameScore) => CategoryOk(f, s) && DifficultyOk(f, s)
  }

  function FiltersTest(f: RankingFilters): GameScore -> bool {
    (s: GameScore) => MatchesFilters(f, s)
  }

  /* ---------------------------------------------------------------------
     Store actions.
     --------------------------------------------------------------------- */

  /** The score record `saveGameResult` builds from a finished game. The
      id (`Date.now()`) and the date (`new Date()`) come from two separate
      clock reads, so they are two parameters. */
  function MakeScore(result: GameResult, playerName: string, idTime: nat, date: nat): (s: GameScore)
    ensures s.id == NatToString(idTime) && s.playerName == playerName && s.date == date
    ensures s.category == result.challenge.title && s.difficulty == result.challenge.difficulty
    ensures s.time == result.timeElapsed && s.moves == result.moves
    ensures s.completed == result.completed
  {
    GameScore(NatToString(idTime), playerName, result.challenge.title, result.challenge.difficulty,
              result.timeElapsed, result.moves, date, result.completed)
  }

  /** `saveGameResult(result, playerName)` with the clock reads `idTime`
      and `date`: the new score joins the list, which is re-sorted by
      ascending time (stably); the filtered view follows only while no
      filter is active. */
  function SaveGameResult(st: RankingState, result: GameResult, playerName: string,
                          idTime: nat, date: nat): (r: RankingState)
    ensures |r.scores| == |st.scores| + 1
    ensures multiset(r.scores) == multiset(st.scores) + multiset{MakeScore(result, playerName, idTime, date)}
    ensures SortedBy(r.scores, ScoreTime)
    ensures r.filteredScores == if AnyFilterActive(st.activeFilters) then st.filteredScores else r.scores
    ensures r.activeFilters == st.activeFilters && r.isLoading == st.isLoading
  {
    var score := MakeScore(result, playerName, idTime, date);
    var updated := SortBy(st.scores + [score], ScoreTime);
    st.(scores := updated,
        filteredScores := if AnyFilterActive(st.activeFilters) then st.filteredScores else updated)
  }

  /** Saving into a sorted list places the new score after every score
      with the same or a smaller time and before every slower one. */
  lemma SaveAppendsInTimeOrder(st: RankingState, result: GameResult, playerName: string,
                               idTime: nat, date: nat)
    requires SortedBy(st.scores, ScoreTime)
    ensures SaveGameResult(st, result, playerName, idTime, date).scores
            == Insert(MakeScore(result, playerName, idTime, date), st.scores, ScoreTime)
  {
    var score := MakeScore(result, playerName, idTime, date);
    var s := st.scores + [score];
    var n := |s| - 1;
    assert s[..n] == st.scores;
    SortSortedIdentity(st.scores, ScoreTime);
  }

  /** Scores with equal times keep the order in which they were saved. */
  lemma SaveIsStable(st: RankingState, result: GameResult, playerName: string,
                     idTime: nat, date: nat, t: int)
    ensures Filter(HasKey(ScoreTime, t), SaveGameResult(st, result, playerName, idTime, date).scores)
            == Filter(HasKey(ScoreTime, t), st.scores + [MakeScore(result, playerName, idTime, date)])
  {
    SortStable(st.scores + [MakeScore(result, playerName, idTime, date)], ScoreTime, t);
  }

  /** `applyFilters(filters)`: the filters become active and the filtered
      view is the list passed through the category, difficulty and date
      filters in turn, each skipped when inactive. */
  function ApplyFilters(st: RankingState, filters: RankingFilters): (r: RankingState)
    ensures r.activeFilters == filters && r.scores == st.scores && r.isLoading == st.isLoading
    ensures forall i :: 0 <= i < |r.filteredScores| ==> DateOk(filters, r.filteredScores[i])
    ensures |r.filteredScores| <= |st.scores|
  {
    var byCategory := if CategoryActive(filters) then Filter(CategoryTest(filters), st.scores) else st.scores;
    var byDifficulty := if filters.difficulty.Some? then Filter(DifficultyTest(filters), byCategory) else byCategory;
    var byDate := if filters.dateRange.Some? then Filter(DateTest(filters), byDifficulty) else byDifficulty;
    st.(activeFilters := filters, filteredScores := byDate)
  }

  /** A filter step that is skipped is the same as filtering by a test that
      every score passes. */
  lemma SkippedStep(test: GameScore -> bool, active: bool, s: seq<GameScore>)
    requires !active ==> forall x :: test(x)
    ensures (if active then Filter(test, s) else s) == Filter(test, s)
  {
    if !active {
      FilterKeepsAll(test, s);
    }
  }

  /** The filtered view is the list filtered once by all active filters
      together. */
  lemma ApplyFiltersIsOneFilter(st: RankingState, filters: RankingFilters)
    ensures ApplyFilters(st, filters).filteredScores == Filter(FiltersTest(filters), st.scores)
  {
    var s := st.scores;
    SkippedStep(CategoryTest(filters), CategoryActive(filters), s);
    var a := Filter(CategoryTest(filters), s);
    SkippedStep(DifficultyTest(filters), filters.difficulty.Some?, a);
    var b := Filter(DifficultyTest(filters), a);
    SkippedStep(DateTest(filters), filters.dateRange.Some?, b);
    FilterTwice(CategoryTest(filters), DifficultyTest(filters), CategoryDifficultyTest(filters), s);
    FilterTwice(CategoryDifficultyTest(filters), DateTest(filters), FiltersTest(filters), s);
  }

  /** The filtered view holds exactly the scores matching every active
      filter, each as often as in the list, in list order. */
  lemma ApplyFiltersSpec(st: RankingState, filters: RankingFilters)
    ensures var r := ApplyFilters(st, filters).filteredScores;
            && (forall i :: 0 <= i < |r| ==> MatchesFilters(filters, r[i]))
            && (forall x :: multiset(r)[x] == if MatchesFilters(filters, x) then multiset(st.scores)[x] else 0)
            && IsSubsequence(r, st.scores)
  {
    ApplyFiltersIsOneFilter(st, filters);
    FilterMultiset(FiltersTest(filters), st.scores);
    FilterSubsequence(FiltersTest(filters), st.scores);
  }

  /** With no active filter the view is the whole list. */
  lemma ApplyNoFilterShowsAll(st: RankingState, filters: RankingFilters)
    requires !AnyFilterActive(filters)
    ensures ApplyFilters(st, filters).filteredScores == st.scores
  {
  }

  /** `clearFilters`: no active filter, and the view is the whole list. */
  function ClearFilters(st: RankingState): (r: RankingState)
    ensures !AnyFilterActive(r.activeFilters)
    ensures r.filteredScores == r.scores && r.scores == st.scores && r.isLoading == st.isLoading
  {
    st.(activeFilters := NoFilters, filteredScores := st.scores)
  }

  /** Clearing the filters gives the same view as applying no filter. */
  lemma ClearFiltersIsApplyNone(st: RankingState)
    ensures ClearFilters(st) == ApplyFilters(st, NoFilters)
  {
  }

  /** `clearAllScores`: both lists empty, filters kept. */
  function ClearAllScores(st: RankingState): (r: RankingState)
    ensures r.scores == [] && r.filteredScores == []
    ensures r.activeFilters == st.activeFilters && r.isLoading == st.isLoading
  {
    st.(scores := [], filteredScores := [])
  }

  function IdIsNot(id: string): GameScore -> bool {
    (s: GameScore) => s.id != id
  }

  /** `deleteScore(id)`: every entry with that id leaves both lists. */
  function DeleteScore(st: RankingState, id: string): (r: RankingState)
    ensures forall i :: 0 <= i < |r.scores| ==> r.scores[i].id != id
    ensures forall i :: 0 <= i < |r.filteredScores| ==> r.filteredScores[i].id != id
    ensures r.activeFilters == st.activeFilters && r.isLoading == st.isLoading
  {
    st.(scores := Filter(IdIsNot(id), st.scores),
        filteredScores := Filter(IdIsNot(id), st.filteredScores))
  }

  /** Deleting removes exactly the entries with that id and keeps the rest
      of each list, with multiplicity and in order. */
  lemma DeleteScoreSpec(st: RankingState, id: string)
    ensures var r := DeleteScore(st, id);
            && (forall x :: multiset(r.scores)[x] == if x.id != id then multiset(st.scores)[x] else 0)
            && (forall x :: multiset(r.filteredScores)[x] == if x.id != id then multiset(st.filteredScores)[x] else 0)
            && IsSubsequence(r.scores, st.scores)
            && IsSubsequence(r.filteredScores, st.filteredScores)
  {
    FilterMultiset(IdIsNot(id), st.scores);
    FilterMultiset(IdIsNot(id), st.filteredScores);
    FilterSubsequence(IdIsNot(id), st.scores);
    FilterSubsequence(IdIsNot(id), st.filteredScores);
  }

  /** Deleting an id that is not in the lists changes nothing. */
  lemma DeleteAbsentId(st: RankingState, id: string)
    requires forall i :: 0 <= i < |st.scores| ==> st.scores[i].id != id
    requires forall i :: 0 <= i < |st.filteredScores| ==> st.filteredScores[i].id != id
    ensures DeleteScore(st, id) == st
  {
    FilterKeepsAll(IdIsNot(id), st.scores);
    FilterKeepsAll(IdIsNot(id), st.filteredScores);
  }

  /** `Array.prototype.slice(0, end)`'s end position for an integer `end`:
      a negative end counts back from the length. */
  function SliceEnd(n: nat, end: int): (e: nat)
    ensures e <= n
    ensures end >= 0 ==> e == if end <= n then end else n
    ensures end < 0 ==> e == if n + end > 0 then n + end else 0
  {
    if end < 0 then (if n + end > 0 then n + end else 0)
    else if end <= n then end else n
  }

  /** `getTopScores(limit = 10)`: the first `limit` entries of the view. */
  function GetTopScores(st: RankingState, limit: Option<int>): (r: seq<GameScore>)
    ensures |r| <= |st.filteredScores| && r == st.filteredScores[..|r|]
    ensures limit.GetOr(10) >= 0 ==> |r| == Min(limit.GetOr(10), |st.filteredScores|)
  {
    st.filteredScores[..SliceEnd(|st.filteredScores|, limit.GetOr(10))]
  }

  /** On a view sorted by time, the top scores are the fastest ones: none
      left out is faster than one returned. */
  lemma TopScoresAreFastest(st: RankingState, limit: Option<int>, i: nat, j: nat)
    requires SortedBy(st.filteredScores, ScoreTime)
    requires i < |GetTopScores(st, limit)| <= j < |st.filteredScores|
    ensures GetTopScores(st, limit)[i].time <= st.filteredScores[j].time
  {
    assert GetTopScores(st, limit)[i] == st.filteredScores[i];
    assert ScoreTime(st.filteredScores[i]) <= ScoreTime(st.filteredScores[j]);
  }

  function PlayerIs(name: string): GameScore -> bool {
    (s: GameScore) => s.playerName == name
  }

  /** `getPlayerScores(playerName)`: that player's scores. */
  function GetPlayerScores(st: RankingState, playerName: string): (r: seq<GameScore>)
    ensures forall i :: 0 <= i < |r| ==> r[i].playerName == playerName
  {
    Filter(PlayerIs(playerName), st.scores)
  }

  /** A player's scores are exactly the list's entries with that name, in
      list order (so in ascending time when the list is sorted). */
  lemma GetPlayerScoresSpec(st: RankingState, playerName: string)
    ensures var r := GetPlayerScores(st, playerName);
            && (forall x :: multiset(r)[x] == if x.playerName == playerName then multiset(st.scores)[x] else 0)
            && IsSubsequence(r, st.scores)
            && (SortedBy(st.scores, ScoreTime) ==> SortedBy(r, ScoreTime))
  {
    FilterMultiset(PlayerIs(playerName), st.scores);
    FilterSubsequence(PlayerIs(playerName), st.scores);
    if SortedBy(st.scores, ScoreTime) {
      FilterKeepsSorted(PlayerIs(playerName), st.scores, ScoreTime);
    }
  }

  /* ---------------------------------------------------------------------
     The ordering invariant.
     --------------------------------------------------------------------- */

  /** Both the list and its view are in ascending time order. */
  predicate RankingSorted(st: RankingState) {
    SortedBy(st.scores, ScoreTime) && SortedBy(st.filteredScores, ScoreTime)
  }

  /** Every store action keeps both lists in ascending time order. */
  lemma ActionsKeepSorted(st: RankingState, result: GameResult, playerName: string,
                          idTime: nat, date: nat, filters: RankingFilters, id: string)
    requires RankingSorted(st)
    ensures RankingSorted(SaveGameResult(st, result, playerName, idTime, date))
    ensures RankingSorted(ApplyFilters(st, filters))
    ensures RankingSorted(ClearFilters(st))
    ensures RankingSorted(ClearAllScores(st))
    ensures RankingSorted(DeleteScore(st, id))
  {
    ApplyFiltersIsOneFilter(st, filters);
    FilterKeepsSorted(FiltersTest(filters), st.scores, ScoreTime);
    FilterKeepsSorted(IdIsNot(id), st.scores, ScoreTime);
    FilterKeepsSorted(IdIsNot(id), st.filteredScores, ScoreTime);
  }
}
