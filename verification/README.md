# Memory game core, modelled in Dafny

This project models the game logic of a React Native memory game in Dafny:
- the card service: pair creation, deck generation, the Fisher-Yates shuffle, per-card updates and deck queries;
- the game service, a value-in/value-out state machine over a session (`initializeGame`, `startGame`, `selectCard`, `resetMismatchedCards`, `tick`, `pause`/`resume`, `finishGame`, `resetGame`, `calculateScore`);
- the challenge table;
- the pure updates of the game store and the ranking store;
- the auth store and the login view model;
- the history, game header, victory modal and difficulty icon view models;
- the three free time/array helpers.

Everything is pure functions over immutable datatypes. The two exceptions are `shuffleArray` and `createCardPairs`, which are methods; the first holds the shuffle loop. Randomness and clocks are parameters:
- `Math.random()` becomes a sequence of draws, one per swap;
- `Date.now()` and `new Date()` become integer timestamps, one parameter per clock read.

The main results:
- **Deck.** A generated deck is a permutation of the unshuffled pairs. Its ids are pairwise distinct, and a challenge built from a built-in theme shows each value on exactly two cards.
- **Session invariant.** The invariant `Game.Valid` holds for every state a session reaches (`Game.RunPreservesValid`). It says:
  - ids are distinct, with two cards per pair;
  - matched cards are face up;
  - `matchedPairs` is half the matched cards;
  - at most two distinct face-up unmatched cards are selected;
  - a finished game is complete.
- **Selection.** `selectCard` is refused exactly in the documented cases. A match marks exactly the two selected cards.
- **Round trips.** Both time formatters read back to the seconds they show.
- **Sorting.** The ranking and history sorts are stable sorts by the comparator's key. Every ranking action keeps both lists in ascending time order.
- **Filters.** The filter chain equals one filter by all active filters.

Two facts of the code are kept as written:
- The hard difficulty's time limit is 10 seconds, although its estimated time is "3 min".
- The victory modal's ordinal suffix is the two characters U+0E22 U+0E1A.

Modules follow the source files:
- `Cards`: `card.service.ts`;
- `Game`: `game.service.ts`;
- `Challenges`: `challenge.model.ts`;
- `GameStore`: `store/game.ts`;
- `Ranking`: `store/ranking.ts`;
- `History`: `history.viewmodel.ts`;
- `TimeFormat`: the free functions of `timer.service.ts`;
- `FormatUtils`: `utils/format.ts`;
- `GameHeader`, `VictoryModal`, `DifficultyIcon`: the view models of the same names;
- `Auth`: `store/auth.ts`;
- `Login`: `login.viewmodel.ts`.

`Text`, `Seqs` and `Sorting` model the JavaScript runtime pieces the code relies on:
- `String(n)`;
- `padStart`, `trim`, `toLowerCase`;
- `filter`;
- the stable `Array.prototype.sort`.

## Model

| member | source | states |
|---|---|---|
| Text.NatToString | src/services/timer.service.ts:63 | `n.toString()` of a non-negative integer is a non-empty string of decimal digits |
| Text.NatToStringRoundTrip | src/services/timer.service.ts:60-64 | `String(n)` reads back as n, has no leading zero, and is one digit exactly below 10 and at most two exactly below 100 |
| Text.NatToStringInjective | src/services/card.service.ts:9 | different numbers render as different decimal strings |
| Text.PadStart2 | src/services/timer.service.ts:63 | `padStart(2, '0')` keeps the input as the suffix and fills to length two with leading zeros only |
| Text.PadStart2Value | src/services/timer.service.ts:63 | padding a rendered number keeps it a decimal string of the same value |
| Text.Trim | src/store/auth.ts:24 | `trim()` returns the slice between the leading and the trailing whitespace, which neither starts nor ends with whitespace |
| Text.TrimEmpty | src/viewModels/auth/login.viewmodel.ts:24-29 | the trimmed name is empty exactly when the name is whitespace only |
| Text.TrimIdempotent | src/store/auth.ts:24-29 | trimming an already trimmed name changes nothing |
| Text.ToLower | src/models/challenge.model.ts:129 | `toLowerCase()` keeps the length and maps ASCII capitals to small letters, leaving other characters |
| Seqs.Filter | src/services/card.service.ts:83 | `filter` keeps only elements satisfying the predicate and is never longer than the input |
| Seqs.FilterMultiset | src/store/ranking.ts:100-101 | the filtered array holds each satisfying element exactly as often as the input and nothing else |
| Seqs.FilterSubsequence | src/store/ranking.ts:100-101 | the filtered array keeps the input order |
| Seqs.Swap | src/services/card.service.ts:41 | the destructuring swap exchanges positions i and j and leaves every other position |
| Seqs.SwapMultiset | src/services/card.service.ts:41 | a swap loses and adds no element |
| Sorting.SortBy | src/store/ranking.ts:42 | the sorted copy is a permutation of the input in ascending key order |
| Sorting.SortStable | src/store/ranking.ts:42 | the sort is stable: elements with equal keys keep their input order |
| Sorting.SortSortedIdentity | src/store/ranking.ts:42 | sorting an already sorted array changes nothing |
| Sorting.Insert | src/store/ranking.ts:42 | inserting into a sorted list keeps it sorted and adds exactly the new element |
| Sorting.InsertFilter | src/store/ranking.ts:42 | inserting appends the new element to the run of elements with its key |
| Sorting.FilterKeepsSorted | src/store/ranking.ts:110-113 | filtering a sorted list keeps it sorted |
| Challenges.DifficultyConfigs | src/models/challenge.model.ts:18-37 | every difficulty entry asks for six pairs, is filed under its own difficulty and has a positive time limit |
| Challenges.ThemesWellFormed | src/models/challenge.model.ts:58-119 | every built-in theme has exactly six cards with distinct names |
| Challenges.CreateChallenge | src/models/challenge.model.ts:121-137 | the id is theme id, "-" and the lower-cased difficulty; the cards are the first min(6, n) theme cards in order; time limit and estimate come from the difficulty table; title and gradient are copied |
| Challenges.BuiltInChallengeWellFormed | src/models/challenge.model.ts:121-137 | a challenge built from a built-in theme has six distinctly named items |
| Cards.CardIdIndex | src/services/card.service.ts:9 | the number after the last '-' of a generated id reads back as its start index |
| Cards.IdsWithDifferentIndexDiffer | src/services/card.service.ts:9 | ids with different numeric suffixes are different ids |
| Cards.CreateCardPair | src/services/card.service.ts:6-23 | both cards of a pair show the item's name and are face down and unmatched |
| Cards.CreateCardPairIds | src/services/card.service.ts:6-23 | the pair's ids end with startIndex and startIndex + 1 |
| Cards.Deck | src/services/card.service.ts:25-32 | the unshuffled deck has two cards per item |
| Cards.DeckPrefixStable | src/services/card.service.ts:28-31 | pushing a pair leaves the earlier cards in place |
| Cards.DeckLastPair | src/services/card.service.ts:28-31 | the last item's pair closes the deck |
| Cards.DeckPair | src/services/card.service.ts:28-31 | positions 2k and 2k+1 of the unshuffled deck hold the pair made for item k with start index 2k |
| Cards.DeckFirstIndex | src/services/card.service.ts:25-31 | card 2k carries 2k as its id suffix |
| Cards.DeckSecondIndex | src/services/card.service.ts:25-31 | card 2k+1 carries 2k+1 as its id suffix |
| Cards.DeckCardIndex | src/services/card.service.ts:25-31 | card i of the unshuffled deck carries i as its id suffix |
| Cards.DeckCardFaceDown | src/services/card.service.ts:6-23 | every card of the unshuffled deck is face down and unmatched |
| Cards.DeckIdsUnique | src/services/card.service.ts:25-34 | all ids of a generated deck are distinct, whatever the item names |
| Cards.FisherYates | src/services/card.service.ts:39-42 | the loop from index i down to 1 keeps the length |
| Cards.FisherYatesPermutes | src/services/card.service.ts:39-42 | the loop only rearranges: the result is a permutation of its input |
| Cards.Shuffle | src/services/card.service.ts:36-45 | the shuffled copy is a permutation of the input |
| Cards.FisherYatesIdentity | src/services/card.service.ts:39-42 | draws that always pick the current index leave the order unchanged, so the identity permutation is a possible outcome |
| Cards.FisherYatesKeepsKeysDistinct | src/services/card.service.ts:39-42 | shuffling keeps pairwise distinct keys pairwise distinct |
| Cards.ShuffleKeepsIdsUnique | src/services/card.service.ts:36-45 | a deck with distinct ids still has distinct ids after shuffling |
| Cards.GenerateCards | src/services/card.service.ts:25-34 | the generated deck has 2n cards, is a permutation of the unshuffled pairs, has distinct ids and all cards face down and unmatched |
| Cards.DeckValueCount | src/services/card.service.ts:28-31 | a value occurs in the deck twice as often as the name among the items |
| Cards.DistinctNameCountsOnce | src/models/challenge.model.ts:58-119 | in a list of distinctly named items each name occurs once |
| Cards.CountPermutation | src/services/card.service.ts:33 | a permutation keeps the count of every predicate |
| Cards.GeneratedValuesTwice | src/services/card.service.ts:25-34 | with distinctly named items, each item's name shows on exactly two cards of the generated deck |
| Cards.BuiltInDeckValuesTwice | src/models/challenge.model.ts:121-137 | a deck for any built-in theme has 12 cards and each of its values on exactly two of them |
| Cards.IsMatchSymmetricIrreflexive | src/services/card.service.ts:47-49 | `isMatch` is symmetric and never pairs a card with itself |
| Cards.FlipCard | src/services/card.service.ts:51-56 | only the face changes; id, value and matched flag are kept |
| Cards.MarkAsMatched | src/services/card.service.ts:58-64 | the card becomes matched and face up, id and value kept |
| Cards.ResetCard | src/services/card.service.ts:66-72 | the card becomes face down and unmatched, id and value kept |
| Cards.CardUpdatesCompose | src/services/card.service.ts:51-72 | a later flip overrides an earlier one; marking ignores a prior flip; resetting ignores a prior mark; flipping a matched card up equals marking it |
| Cards.HalfIsWholeWhenEven | src/services/card.service.ts:75 | half of m is whole exactly when m is even |
| Cards.CountMatchedPairs | src/services/card.service.ts:74-76 | twice the result is the number of matched cards, and it is a whole number exactly when that count is even |
| Cards.IsGameComplete | src/services/card.service.ts:78-80 | complete exactly when every card is matched (true for no cards) |
| Cards.CompleteIffAllCounted | src/services/card.service.ts:74-80 | the deck is complete exactly when the matched count equals its length |
| Cards.GetFlippedUnmatchedCards | src/services/card.service.ts:82-84 | exactly the face-up unmatched cards, with their multiplicity, in deck order |
| Game.FindIndex | src/services/game.service.ts:43 | `find` by id: the first position with that id, or none exactly when no card has it |
| Game.FindIndexUnique | src/services/game.service.ts:43 | with distinct ids, looking up a card's id finds that card |
| Game.SameIdsFacts | src/services/game.service.ts:52-54 | decks with the same ids position by position agree on lookups and on id distinctness |
| Game.FlipById | src/services/game.service.ts:52-54 | the id-directed flip keeps every id in place |
| Game.FlipByIdAt | src/services/game.service.ts:52-54 | with distinct ids only the card with that id is turned face up |
| Game.MarkPair | src/services/game.service.ts:74-78 | the id-directed marking keeps every id in place |
| Game.MarkPairAt | src/services/game.service.ts:74-78 | with distinct ids only the two cards with those ids are marked |
| Game.FlipDownSelected | src/services/game.service.ts:110-115 | the reset map keeps every id in place |
| Game.ValidPairsBounded | src/services/game.service.ts:80 | in a valid state no more pairs are matched than exist |
| Game.FreshDeckUnmatched | src/services/game.service.ts:16 | a deck with no matched card counts zero matched cards |
| Game.InitializeGame | src/services/game.service.ts:7-23 | a valid countdown state with a fresh face-down permutation of the pairs, totalPairs = number of items, nothing selected or counted, the whole time limit left and no start time |
| Game.StartGame | src/services/game.service.ts:25-31 | playing from the given timestamp; deck, selection, counters and clocks kept |
| Game.SelectCard | src/services/game.service.ts:33-105 | refused (state unchanged) exactly when not playing, no card has the id, it is face up or matched, or two are selected; a first pick is a flip; a second costs a move and is a match exactly when `isMatch` holds for the first selected card and the chosen card, a mismatch otherwise; a match adds a pair, clears the selection and finishes exactly when complete; a mismatch keeps both selected; time and challenge kept |
| Game.ResetMismatchedCards | src/services/game.service.ts:107-122 | selected unmatched cards turn face down, every other card is kept, the selection empties, counters and status kept |
| Game.Tick | src/services/game.service.ts:124-138 | identity unless playing; otherwise one second passes, remaining time stops at zero, and timeout exactly when it reaches zero |
| Game.TickConservesTime | src/services/game.service.ts:129-130 | with time left, a tick moves one second from remaining to elapsed |
| Game.PauseGame | src/services/game.service.ts:140-145 | only the status changes, to paused |
| Game.ResumeGame | src/services/game.service.ts:147-152 | only the status changes, to playing, whatever it was |
| Game.PauseResumeRoundTrip | src/services/game.service.ts:140-152 | pausing then resuming a playing game gives it back unchanged |
| Game.FinishGame | src/services/game.service.ts:154-165 | no result exactly without a challenge; otherwise completed exactly when finished, with moves, elapsed time and challenge copied |
| Game.ResetGame | src/services/game.service.ts:167-169 | a valid countdown session of the same challenge with nothing played and the whole time limit |
| Game.CalculateScore | src/services/game.service.ts:171-173 | the score is at least the elapsed seconds and at least five per move (the exact value is fixed by `Game.ScoreIncrements`) |
| Game.ScoreIncrements | src/services/game.service.ts:171-173 | one more move adds five points, one more second adds one, and no moves in no time scores zero, so the score is the elapsed seconds plus five per move |
| Game.TerminalStates | src/services/game.service.ts:39-41 | once finished or timed out, selecting and ticking change nothing |
| Game.SelectInvalidIff | src/services/game.service.ts:39-50 | in a valid state a selection is refused exactly when not playing, two are selected, or no face-down unmatched card has the id |
| Game.SelectFirstFlips | src/services/game.service.ts:52-67 | a first selection turns exactly the chosen card up and selects its face-down snapshot |
| Game.SelectMatchMarks | src/services/game.service.ts:69-93 | a match marks exactly the two selected cards and leaves every other card |
| Game.SelectMismatchLocks | src/services/game.service.ts:94-104 | a mismatch leaves both cards up and selected, and every further selection is refused until reset |
| Game.MatchFinalCards | src/services/game.service.ts:69-93 | after a match the deck is the old deck with exactly positions i and j marked |
| Game.MatchShape | src/services/game.service.ts:52-78 | a match comes from a single prior selection and a face-down card, and its deck is the marking of the flipped deck |
| Game.FlipUpFacts | src/services/game.service.ts:52-54 | turning an unmatched card up keeps ids, lookups, the matched count and matched-face-up |
| Game.MarkTwoFacts | src/services/game.service.ts:74-80 | marking two unmatched cards adds two matched cards and keeps ids and matched-face-up |
| Game.HeldNewlyFlipped | src/services/game.service.ts:52-56 | the card just turned up is held by its snapshot |
| Game.HeldAfterFlipUp | src/services/game.service.ts:52-56 | turning another card up keeps a held card held |
| Game.FirstSelectionValid | src/services/game.service.ts:52-67 | a first selection's state is valid |
| Game.SelectFlipValid | src/services/game.service.ts:52-67 | a flip keeps the invariant |
| Game.SecondSelectionValid | src/services/game.service.ts:94-104 | a second selection's state is valid |
| Game.SelectMismatchValid | src/services/game.service.ts:94-104 | a mismatch keeps the invariant |
| Game.MatchedStateValid | src/services/game.service.ts:73-93 | the state after marking a pair is valid when it is finished only if complete |
| Game.SelectMatchValid | src/services/game.service.ts:73-93 | a match keeps the invariant |
| Game.SelectPreservesValid | src/services/game.service.ts:33-105 | `selectCard` keeps the invariant |
| Game.ResetPreservesValid | src/services/game.service.ts:107-122 | `resetMismatchedCards` keeps the invariant |
| Game.OthersPreserveValid | src/services/game.service.ts:124-152 | tick, pause, resume and start keep the invariant |
| Game.RunPreservesValid | src/services/game.service.ts:25-152 | any sequence of operations keeps the invariant, never decreases moves and never changes the pair count |
| Game.SessionBounded | src/services/game.service.ts:7-152 | every state of a fresh session is valid and never counts more matched pairs than items |
| GameStore.InitialStoreValid | src/store/game.ts:41-61 | the initial store holds a valid, empty game |
| GameStore.ClearGame | src/store/game.ts:101-121 | every game field and UI flag goes back to its initial value |
| GameStore.ClearGameIsInitial | src/store/game.ts:101-121 | clearing yields the initial store from any store and is idempotent |
| GameStore.InitGame | src/store/game.ts:63-66 | the game becomes a valid fresh countdown session of the challenge, UI flags kept |
| GameStore.ResetGame | src/store/game.ts:91-99 | nothing happens without a challenge; otherwise a fresh valid session of the same challenge with nothing played |
| GameStore.PreviewAllCards | src/store/game.ts:216-223 | every card face up, all else about the cards and the game kept, preview flag on |
| GameStore.HideAllCards | src/store/game.ts:225-231 | every card face down (matched ones too), all else kept, preview flag off |
| GameStore.PreviewThenHide | src/store/game.ts:216-231 | previewing then hiding a face-down deck gives the same game back |
| GameStore.PreviewKeepsValid | src/store/game.ts:216-223 | previewing keeps a valid game valid |
| GameStore.HideKeepsValidWhenFresh | src/store/game.ts:225-231 | hiding keeps a valid game valid when nothing is matched or selected |
| GameStore.HideBreaksMatchedFaceUp | src/store/game.ts:225-231 | hiding a deck with a matched card breaks "matched cards are face up" |
| GameStore.FreshCountZero | src/store/game.ts:225-231 | a zero matched count means every card is unmatched |
| GameStore.StoreSelectCard | src/store/game.ts:135-162 | the service's state replaces the game; a finishing match schedules `finishGame` and a mismatch schedules `resetMismatchedCards`, exactly |
| GameStore.MismatchFollowUpUnlocks | src/store/game.ts:153-168 | when a mismatch's follow-up runs before any other event, the game is valid, playing, has nothing selected and one more move |
| GameStore.FinishFollowUpCompleted | src/store/game.ts:145-151 | when a finishing match's follow-up runs before any other event, it yields a completed result |
| GameStore.ResetBeforeFinishNotCompleted | src/store/game.ts:145-151 | a "play again" reset that lands before the delayed `finishGame` makes it report a fresh session: not completed, no moves |
| Ranking.MakeScore | src/store/ranking.ts:30-39 | the score copies category, difficulty, time, moves and completion from the result; the id is the decimal text of the first clock read and the date is the second |
| Ranking.SaveGameResult | src/store/ranking.ts:29-50 | the list gains exactly the new score and is in ascending time; the view follows only when no filter is active |
| Ranking.SaveAppendsInTimeOrder | src/store/ranking.ts:42 | saving into a sorted list inserts the new score after every score not slower than it |
| Ranking.SaveIsStable | src/store/ranking.ts:42 | scores with equal times keep the order in which they were saved |
| Ranking.ApplyFilters | src/store/ranking.ts:52-79 | the filters become active, the list is kept, and the view only holds scores within the date range |
| Ranking.SkippedStep | src/store/ranking.ts:58-76 | a skipped filter step equals filtering by a test every score passes |
| Ranking.ApplyFiltersIsOneFilter | src/store/ranking.ts:52-79 | the filter chain equals one filter by all active filters together |
| Ranking.ApplyFiltersSpec | src/store/ranking.ts:52-79 | the view holds exactly the scores matching every active filter (date range inclusive), with multiplicity, in list order |
| Ranking.ApplyNoFilterShowsAll | src/store/ranking.ts:52-79 | with no active filter the view is the whole list |
| Ranking.ClearFilters | src/store/ranking.ts:81-87 | no filter is active and the view is the whole list |
| Ranking.ClearFiltersIsApplyNone | src/store/ranking.ts:52-87 | clearing the filters is applying no filter |
| Ranking.ClearAllScores | src/store/ranking.ts:89-94 | both lists become empty; the filters and the loading flag are kept |
| Ranking.DeleteScore | src/store/ranking.ts:96-103 | no entry with that id is left in either list; the filters and the loading flag are kept |
| Ranking.DeleteScoreSpec | src/store/ranking.ts:96-103 | exactly the entries with that id leave each list; the rest keep multiplicity and order |
| Ranking.DeleteAbsentId | src/store/ranking.ts:96-103 | deleting an absent id changes nothing |
| Ranking.SliceEnd | src/store/ranking.ts:107 | `slice(0, end)` stops at end clamped to the length, counting back from the length for a negative end |
| Ranking.GetTopScores | src/store/ranking.ts:105-108 | a prefix of the view, of length min(limit, n) for a non-negative limit, with 10 as the default |
| Ranking.TopScoresAreFastest | src/store/ranking.ts:105-108 | on a time-sorted view no score left out is faster than one returned |
| Ranking.GetPlayerScores | src/store/ranking.ts:110-113 | every returned score is that player's |
| Ranking.GetPlayerScoresSpec | src/store/ranking.ts:110-113 | exactly the player's entries, with multiplicity, in list order, sorted when the list is |
| Ranking.ActionsKeepSorted | src/store/ranking.ts:29-103 | every action keeps both lists in ascending time order |
| History.FormatTime | src/viewModels/history/history.viewmodel.ts:26-30 | the history clock is the timer service's clock |
| History.DifficultyWeight | src/viewModels/history/history.viewmodel.ts:32-36 | every difficulty weighs 1 to 3, hard exactly 3 and easy exactly 1 |
| History.KeyMatchesCompare | src/viewModels/history/history.viewmodel.ts:47-50 | the sort key agrees with the comparator's sign on every pair of scores |
| History.CompletedGames | src/viewModels/history/history.viewmodel.ts:43-51 | empty without a user name; never longer than the list; sorted by the comparator's key |
| History.CompletedGamesContents | src/viewModels/history/history.viewmodel.ts:43-46 | with a user, exactly that player's completed scores, each as often as stored |
| History.CompletedGamesMultiset | src/viewModels/history/history.viewmodel.ts:45-46 | with a user, the list holds the player's completed scores with their multiplicity and nothing else |
| History.CompletedGamesMembers | src/viewModels/history/history.viewmodel.ts:46 | with a user, every listed score is that player's and completed |
| History.CompletedGamesOrder | src/viewModels/history/history.viewmodel.ts:47-50 | fastest first, and among equal times the harder difficulty first |
| History.CompletedGamesStable | src/viewModels/history/history.viewmodel.ts:47-50 | scores the comparator cannot tell apart keep their store order |
| History.Stats | src/viewModels/history/history.viewmodel.ts:53-64 | the count of games; "00:00" for none, else the clock of the floored mean time |
| History.EmptyAverageIsZeroClock | src/viewModels/history/history.viewmodel.ts:56-58 | the empty-history text is the clock of zero seconds |
| History.TotalTimeBounds | src/viewModels/history/history.viewmodel.ts:60 | times within [lo, hi] give a total within [n·lo, n·hi] |
| History.AverageTimeIsFloorMean | src/viewModels/history/history.viewmodel.ts:60-63 | the average reads back as the floor of the mean: avg·n <= total < (avg+1)·n |
| History.AverageTimeWithinRange | src/viewModels/history/history.viewmodel.ts:60-61 | the average lies between the fastest and the slowest game |
| History.QuotientBetween | src/viewModels/history/history.viewmodel.ts:61 | n·lo <= a <= n·hi puts ⌊a/n⌋ within [lo, hi] |
| History.FormattedMatches | src/viewModels/history/history.viewmodel.ts:66-75 | one row per game, in list order, with its id, category and difficulty |
| History.FormattedMatchesSpec | src/viewModels/history/history.viewmodel.ts:66-75 | positions are exactly 1..n, consecutive, and each row's time reads back as the game's time |
| History.FormattedPositionsExact | src/viewModels/history/history.viewmodel.ts:70 | row i shows position i + 1, so positions are exactly 1..n |
| History.FormattedTimesReadBack | src/viewModels/history/history.viewmodel.ts:72 | each row's time text reads back as the game's time |
| TimeFormat.Field | src/services/timer.service.ts:63 | a padded field is a decimal string of at least two digits reading back as its number, two exactly below 100 |
| TimeFormat.FormatTime | src/services/timer.service.ts:60-64 | the text before the last ':' reads as the minutes and the two digits after it as the seconds; five characters exactly below 6000 s |
| TimeFormat.ParseClockOf | src/services/timer.service.ts:60-64 | reading `m:ss` gives back the two fields' values |
| TimeFormat.ClockRoundTrip | src/services/timer.service.ts:60-64 | the clock reads back as the seconds it shows |
| TimeFormat.FormatTimeInjective | src/services/timer.service.ts:60-64 | different seconds give different clocks |
| TimeFormat.FormatTimeHuman | src/services/timer.service.ts:66-79 | "Ss" under a minute, "Mmin" on whole minutes, else "Mmin Ss" |
| TimeFormat.ParseSecondsOf | src/services/timer.service.ts:70-72 | "Ss" reads back as S |
| TimeFormat.ParseMinutesOf | src/services/timer.service.ts:74-76 | "Mmin" reads back as M·60 |
| TimeFormat.MinutesSecondsUnit | src/services/timer.service.ts:78 | the unit part "min Ss" adds S seconds to M minutes |
| TimeFormat.HumanRoundTrip | src/services/timer.service.ts:66-79 | the human form reads back as the seconds it shows |
| TimeFormat.HumanSecondsRoundTrip | src/services/timer.service.ts:70-72 | under a minute the human form reads back |
| TimeFormat.HumanMinutesRoundTrip | src/services/timer.service.ts:74-76 | whole minutes read back |
| TimeFormat.HumanMixedRoundTrip | src/services/timer.service.ts:78 | minutes and seconds read back |
| TimeFormat.FormatTimeHumanInjective | src/services/timer.service.ts:66-79 | different seconds give different human forms |
| FormatUtils.FormatTime | src/utils/format.ts:1-5 | the utility clock is the timer service's clock |
| FormatUtils.ShuffleArray | src/utils/format.ts:7-14 | the loop returns a permutation of the input, exactly the card service's shuffle for the same draws |
| FormatUtils.Turns | src/utils/format.ts:9-12 | the array after k turns of the loop keeps its length |
| FormatUtils.TurnsReachShuffle | src/utils/format.ts:9-12 | the loop's first k turns followed by the remaining recursive turns give the whole shuffle |
| FormatUtils.FisherYatesUnfold | src/utils/format.ts:9-12 | one turn of the loop is one unfolding of the recursive shuffle |
| FormatUtils.ItemPair | src/utils/format.ts:17-20 | each item gives two cards |
| FormatUtils.Pairs | src/utils/format.ts:17-20 | `flatMap` gives two cards per item |
| FormatUtils.PairsAt | src/utils/format.ts:17-20 | card 2k is `<item k>-1` and card 2k+1 is `<item k>-2`, both face down and unmatched |
| FormatUtils.PairsCard | src/utils/format.ts:17-20 | every card, by position: value item i/2, suffix by parity, face down and unmatched |
| FormatUtils.SuffixedIds | src/utils/format.ts:18-19 | `x-c` equals `y-d` exactly when x = y and c = d |
| FormatUtils.PairsIdsUniqueIff | src/utils/format.ts:16-20 | the pair ids are distinct exactly when the items are |
| FormatUtils.CreateCardPairs | src/utils/format.ts:16-22 | a face-down, unmatched permutation of the pairs whose ids are distinct exactly when the items are |
| FormatUtils.ShuffleIdsUniqueIff | src/utils/format.ts:21 | shuffling neither creates nor removes a repeated id |
| FormatUtils.PermutationKeepsRepeatedId | src/utils/format.ts:21 | a repeated id survives any permutation |
| GameHeader.TimeString | src/viewModels/game/components/GameHeader/GameHeader.viewmodel.ts:10-12 | the header clock is the history screen's clock |
| GameHeader.CriticalIsLow | src/viewModels/game/components/GameHeader/GameHeader.viewmodel.ts:13-14 | critical time is always low time |
| GameHeader.HapticEffect | src/viewModels/game/components/GameHeader/GameHeader.viewmodel.ts:19-30 | the warning fires exactly for a time in 1..10 different from the last one it fired for, and then remembers it |
| GameHeader.HapticRun | src/viewModels/game/components/GameHeader/GameHeader.viewmodel.ts:17-30 | no more warnings than effect runs |
| GameHeader.HapticOncePerValue | src/viewModels/game/components/GameHeader/GameHeader.viewmodel.ts:17-30 | on a count-down the warnings are for strictly decreasing times in 1..10, the first not the starting value |
| GameHeader.HapticFiredInRange | src/viewModels/game/components/GameHeader/GameHeader.viewmodel.ts:20-26 | the warning only fires for times in 1..10 |
| GameHeader.HapticFirstFired | src/viewModels/game/components/GameHeader/GameHeader.viewmodel.ts:17-29 | on a count-down the first warning is no later than the first value and not the starting `lastHapticTime` |
| GameHeader.HapticFiredDecreasing | src/viewModels/game/components/GameHeader/GameHeader.viewmodel.ts:26-29 | on a count-down the warnings are for strictly decreasing times, so at most once per value |
| VictoryModal.TimeString | src/viewModels/game/components/VictoryModal/VictoryModal.viewmodel.ts:7-9 | the elapsed clock is the history clock; its seconds field is two digits worth less than 60 |
| VictoryModal.PositionSuffix | src/viewModels/game/components/VictoryModal/VictoryModal.viewmodel.ts:11-13 | the suffix is two characters long |
| VictoryModal.PositionSuffixConstant | src/viewModels/game/components/VictoryModal/VictoryModal.viewmodel.ts:11-13 | the suffix does not depend on the position |
| DifficultyIcon.BarCount | src/components/DifficultyIcon/DifficultyIcon.viewmodel.ts:18 | one to three bars |
| DifficultyIcon.BarCountOrder | src/components/DifficultyIcon/DifficultyIcon.viewmodel.ts:18 | bars grow with difficulty and equal the history weight of the same difficulty |
| DifficultyIcon.GetBarStyle | src/components/DifficultyIcon/DifficultyIcon.viewmodel.ts:31-35 | a height exactly for bars 1..3 (4·index + 2); the active colour exactly when lit and selected; opaque exactly when lit, faded exactly when not |
| DifficultyIcon.OpaqueBarsAreBarCount | src/components/DifficultyIcon/DifficultyIcon.viewmodel.ts:18-35 | exactly `barCount` of the three bars are opaque, and the bars get taller left to right |
| Auth.SetAuthenticated | src/store/auth.ts:20-39 | the flag is the value; a truthy name with a true value stores the trimmed name and a user `user-<now>` with it; anything else clears both |
| Auth.Logout | src/store/auth.ts:40-46 | signed out with no user and no user name |
| Auth.LogoutIsSetFalse | src/store/auth.ts:32-46 | logging out equals `setAuthenticated(false)` with any name |
| Auth.ActionsKeepConsistent | src/store/auth.ts:20-46 | both actions leave a user exactly when a user name, equal names, and a user only while authenticated |
| Auth.BlankNameSignsInEmpty | src/store/auth.ts:21-29 | a whitespace-only name is truthy and signs in with the empty user name |
| Auth.NamelessSignIn | src/store/auth.ts:21-37 | `setAuthenticated(true)` without a name is authenticated with no user |
| Login.SetName | src/viewModels/auth/login.viewmodel.ts:18-20 | the name is stored and the error cleared |
| Login.ClearError | src/viewModels/auth/login.viewmodel.ts:46-48 | only the error changes, to none |
| Login.HandleLogin | src/viewModels/auth/login.viewmodel.ts:22-44 | succeeds exactly when the name is not blank; failure sets the error and leaves the auth store; success signs in with the trimmed name, loading off, no error |
| Login.LoginUserNameNonEmpty | src/viewModels/auth/login.viewmodel.ts:24-34 | after a successful login the store holds a non-empty, already trimmed user name equal to the user's name |

## Left out

- Card images, theme icons, gradients' rendering and arrow colours are presentation data. Gradients and icons are kept as plain strings.
- `Math.random()` is replaced by a sequence of draws. `draws[k] % (i + 1)` stands for `Math.floor(Math.random() * (i + 1))`: both are some index in [0, i].
- `Date.now()` and `new Date()` become integer timestamp parameters. Date objects are compared as those integers.
- Timers are not modelled: `startTimer`/`stopTimer`, `setInterval`, the `_timerId` field and the `TimerService` class. `setTimeout` is not modelled either: `GameStore.StoreSelectCard` returns the follow-up it would schedule instead of waiting 500 ms or 1000 ms.
- Haptic calls are not modelled. The game header's warning is reduced to a "fires" flag.
- Animations are not modelled: the header pulses, the difficulty icon press and all reanimated values.
- Persistence (zustand `persist`, AsyncStorage) is not modelled.
- Navigation is not modelled: `handleBack` and `navigateTo`.
- The `dd/MM/yy` date text of history rows (date-fns `format`) is not modelled: it is formatting of a clock value the model does not have.
- The game store's UI setters (`setShowVictoryModal` and the like) are single-field writes and are not modelled. Its `startGame`, `pauseGame`, `resumeGame`, `tick` and `finishGame` wrappers only add timer and haptic calls around the `Game` functions.
- JavaScript numbers are doubles; the model uses unbounded naturals. Counters and times stay far below 2^53.
- The `isLoading` field of the ranking store is never changed by the code and is only carried along.
- DifficultyIcon.GetBarStyle: opacity is kept in tenths (10 for 1, 3 for 0.3) to avoid real numbers.
- Login.HandleLogin: the `catch` branch is not modelled, because the auth store update it guards cannot throw. The transient `isLoading: true` state is collapsed into the final one, since the function awaits nothing.
- GameStore.HideKeepsValidWhenFresh: hiding keeps the session invariant only when nothing is matched or selected. This is the state right after `initGame`, where the view uses it. `GameStore.HideBreaksMatchedFaceUp` shows the invariant fails mid-game.
- Text.ToLower: only ASCII capitals are mapped. The difficulty labels it is applied to are lower-cased correctly by that: `Fácil`, `Médio`, `Difícil` differ from their lower-case forms only in the first letter.
- GameStore.MismatchFollowUpUnlocks: covers only a reset that runs before any other event. In the code the reset runs 1000 ms later and reads the store then; a pause, or a tick that runs the clock out, in that second leaves the status Paused or Timeout after the reset. `Game.RunPreservesValid` still gives validity for any order of events, a reset included.
- GameStore.FinishFollowUpCompleted: covers only a finish that runs before any other event. In the code `finishGame` runs 500 ms later and reads the store then. The victory modal opens at once, and a "play again" tap in that window resets the game first: the result is then not completed and the success haptic is skipped, as `GameStore.ResetBeforeFinishNotCompleted` states.
- Ranking.ApplyFilters: its own contract states only the date-range bound. The full filter behaviour is stated by `Ranking.ApplyFiltersSpec` and `Ranking.ApplyFiltersIsOneFilter`.
