/** The game session state machine (src/models/game.model.ts,
    src/services/game.service.ts): every operation maps a `GameState` to a
    new one. `new Date()` becomes a timestamp parameter and the card shuffle
    takes its draws as a parameter. */
module Game {
  import opened Options
  import opened Seqs
  import opened Challenges
  import opened Cards

  datatype Status = Idle | Countdown | Playing | Paused | Finished | Timeout

  datatype GameState = GameState(
    status: Status,
    challenge: Option<Challenge>,
    cards: seq<Card>,
    selectedCards: seq<Card>,
    matchedPairs: nat,
    totalPairs: nat,
    moves: nat,
    timeRemaining: nat,
    timeElapsed: nat,
    startedAt: Option<int>)

  datatype Action = Flip | Match | Mismatch | Invalid

  /** What `selectCard` returns: the next state and what happened. */
  datatype Selection = Selection(newState: GameState, action: Action)

  datatype GameResult = GameResult(completed: bool, timeElapsed: nat, moves: nat, challenge: Challenge)

  /* ---------------------------------------------------------------------
     Card lookups and the id-directed `cards.map` updates.
     --------------------------------------------------------------------- */

  /** `cards.find(c => c.id === id)`, as the position of the first card
      with that id. */
  function FindIndex(cards: seq<Card>, id: string): (r: Option<nat>)
    ensures r.Some? ==> r.value < |cards| && cards[r.value].id == id
    ensures r.Some? ==> forall k :: 0 <= k < r.value ==> cards[k].id != id
    ensures r.None? <==> forall k :: 0 <= k < |cards| ==> cards[k].id != id
  {
    if |cards| == 0 then None
    else if cards[0].id == id then Some(0)
    else
      match FindIndex(cards[1..], id)
      case None => None
      case Some(k) => Some(k + 1)
  }

  /** With distinct ids, the lookup of a card's id finds that card. */
  lemma FindIndexUnique(cards: seq<Card>, k: nat)
    requires UniqueIds(cards) && k < |cards|
    ensures FindIndex(cards, cards[k].id) == Some(k)
  {
  }

  /** Two decks that carry the same id at every position. */
  predicate SameIds(a: seq<Card>, b: seq<Card>) {
    |a| == |b| && forall k :: 0 <= k < |a| ==> a[k].id == b[k].id
  }

  /** Decks with the same ids agree on lookups and on id distinctness. */
  lemma SameIdsFacts(a: seq<Card>, b: seq<Card>, id: string)
    requires SameIds(a, b)
    ensures FindIndex(a, id) == FindIndex(b, id)
    ensures UniqueIds(a) <==> UniqueIds(b)
  {
    var ra := FindIndex(a, id);
    if ra.Some? {
      assert b[ra.value].id == id;
    }
  }

  /** `cards.map(c => c.id === id ? flipCard(c, true) : c)`. */
  function FlipById(cards: seq<Card>, id: string): (r: seq<Card>)
    ensures SameIds(cards, r)
  {
    seq(|cards|, k requires 0 <= k < |cards| =>
      if cards[k].id == id then FlipCard(cards[k], true) else cards[k])
  }

  /** When ids are distinct, only the card with that id is turned face up. */
  lemma FlipByIdAt(cards: seq<Card>, j: nat)
    requires UniqueIds(cards) && j < |cards|
    ensures FlipById(cards, cards[j].id) == cards[j := FlipCard(cards[j], true)]
  {
    var r := FlipById(cards, cards[j].id);
    forall k | 0 <= k < |cards| && k != j
      ensures r[k] == cards[k]
    {
      if k < j {
        assert cards[k].id != cards[j].id;
      } else {
        assert cards[j].id != cards[k].id;
      }
    }
  }

  /** `cards.map(c => c.id === a || c.id === b ? markAsMatched(c) : c)`. */
  function MarkPair(cards: seq<Card>, a: string, b: string): (r: seq<Card>)
    ensures SameIds(cards, r)
  {
    seq(|cards|, k requires 0 <= k < |cards| =>
      if cards[k].id == a || cards[k].id == b then MarkAsMatched(cards[k]) else cards[k])
  }

  /** When ids are distinct, only the two cards with those ids are marked. */
  lemma MarkPairAt(cards: seq<Card>, i: nat, j: nat)
    requires UniqueIds(cards) && i < |cards| && j < |cards| && i != j
    ensures MarkPair(cards, cards[i].id, cards[j].id)
            == cards[i := MarkAsMatched(cards[i])][j := MarkAsMatched(cards[j])]
  {
    var r := MarkPair(cards, cards[i].id, cards[j].id);
    forall k | 0 <= k < |cards| && k != i && k != j
      ensures r[k] == cards[k]
    {
      assert k < i ==> cards[k].id != cards[i].id;
      assert i < k ==> cards[i].id != cards[k].id;
      assert k < j ==> cards[k].id != cards[j].id;
      assert j < k ==> cards[j].id != cards[k].id;
    }
  }

  /** `selectedCards.some(sc => sc.id === id)`. */
  predicate IsSelectedId(selected: seq<Card>, id: string) {
    exists s :: 0 <= s < |selected| && selected[s].id == id
  }

  /** The update of `resetMismatchedCards`: selected, unmatched cards are
      turned face down. */
  function FlipDownSelected(cards: seq<Card>, selected: seq<Card>): (r: seq<Card>)
    ensures SameIds(cards, r)
  {
    seq(|cards|, k requires 0 <= k < |cards| =>
      if IsSelectedId(selected, cards[k].id) && !cards[k].isMatched
      then FlipCard(cards[k], false) else cards[k])
  }

  /* ---------------------------------------------------------------------
     The invariant of a running session.
     --------------------------------------------------------------------- */

  /** A selected snapshot still names a face-up, unmatched card of the deck
      showing the same value. */
  predicate Held(cards: seq<Card>, c: Card) {
    match FindIndex(cards, c.id)
    case None => false
    case Some(k) => cards[k].value == c.value && cards[k].isFlipped && !cards[k].isMatched
  }

  /** Every matched card is face up. */
  predicate MatchedFaceUp(cards: seq<Card>) {
    forall k :: 0 <= k < |cards| && cards[k].isMatched ==> cards[k].isFlipped
  }

  /** What every reachable state satisfies:
      - ids are distinct and there are two cards per pair;
      - a matched card is face up;
      - `matchedPairs` is half the number of matched cards;
      - at most two cards are selected, each a distinct face-up unmatched card;
      - a finished game has every card matched. */
  predicate Valid(g: GameState) {
    && UniqueIds(g.cards)
    && |g.cards| == 2 * g.totalPairs
    && MatchedFaceUp(g.cards)
    && 2 * g.matchedPairs == MatchedCount(g.cards)
    && |g.selectedCards| <= 2
    && (forall s :: 0 <= s < |g.selectedCards| ==> Held(g.cards, g.selectedCards[s]))
    && (|g.selectedCards| == 2 ==> g.selectedCards[0].id != g.selectedCards[1].id)
    && (g.status == Finished ==> IsGameComplete(g.cards))
  }

  /** In a valid state no more pairs are matched than exist. */
  lemma ValidPairsBounded(g: GameState)
    requires Valid(g)
    ensures g.matchedPairs <= g.totalPairs
  {
  }

  /* ---------------------------------------------------------------------
     Operations.
     --------------------------------------------------------------------- */

  lemma FreshDeckUnmatched(cards: seq<Card>)
    requires forall k :: 0 <= k < |cards| ==> !cards[k].isFlipped && !cards[k].isMatched
    ensures MatchedCount(cards) == 0
  {
    FilterDropsAll(IsMatchedCard, cards);
  }

  /** `GameService.initializeGame(challenge)`: a valid state in countdown
      with a fresh shuffled deck of two cards per item, nothing selected or
      counted and the whole time limit left. */
  function InitializeGame(challenge: Challenge, draws: seq<nat>): (g: GameState)
    requires 2 * |challenge.cards| <= |draws| + 1
    ensures Valid(g)
    ensures g.status == Countdown && g.challenge == Some(challenge)
    ensures |g.cards| == 2 * |challenge.cards| && g.totalPairs == |challenge.cards|
    ensures forall k :: 0 <= k < |g.cards| ==> !g.cards[k].isFlipped && !g.cards[k].isMatched
    ensures multiset(g.cards) == multiset(Deck(challenge.cards))
    ensures g.selectedCards == [] && g.matchedPairs == 0 && g.moves == 0
    ensures g.timeRemaining == challenge.timeLimit && g.timeElapsed == 0
    ensures g.startedAt == None
  {
    var cards := GenerateCards(challenge, draws);
    FreshDeckUnmatched(cards);
    GameState(Countdown, Some(challenge), cards, [], 0, |challenge.cards|, 0,
              challenge.timeLimit, 0, None)
  }

  /** `GameService.startGame`: playing from timestamp `now`; the deck,
      selection, counters and clocks are kept. */
  function StartGame(g: GameState, now: int): (r: GameState)
    ensures r.status == Playing && r.startedAt == Some(now)
    ensures r.cards == g.cards && r.selectedCards == g.selectedCards
    ensures r.matchedPairs == g.matchedPairs && r.totalPairs == g.totalPairs
    ensures r.moves == g.moves && r.challenge == g.challenge
    ensures r.timeRemaining == g.timeRemaining && r.timeElapsed == g.timeElapsed
  {
    g.(status := Playing, startedAt := Some(now))
  }

  /** `GameService.selectCard(state, cardId)`. The request is refused
      (state returned as it is, action Invalid) unless the game is playing,
      the first card with that id exists face down and unmatched, and fewer
      than two cards are selected. A first selection flips the card; a
      second one costs a move and either matches the pair or leaves both
      face up and selected. */
  function SelectCard(g: GameState, cardId: string): (s: Selection)
    ensures s.action == Invalid <==>
              || g.status != Playing
              || FindIndex(g.cards, cardId).None?
              || g.cards[FindIndex(g.cards, cardId).value].isFlipped
              || g.cards[FindIndex(g.cards, cardId).value].isMatched
              || |g.selectedCards| >= 2
    ensures s.action == Invalid ==> s.newState == g
    ensures s.action == Flip <==> s.action != Invalid && |g.selectedCards| == 0
    ensures s.action != Invalid && |g.selectedCards| == 1 && FindIndex(g.cards, cardId).Some? ==>
              var chosen := g.cards[FindIndex(g.cards, cardId).value];
              && (s.action == Match <==> IsMatch(g.selectedCards[0], chosen))
              && (s.action == Mismatch <==> !IsMatch(g.selectedCards[0], chosen))
    ensures s.newState.moves == g.moves + (if s.action == Match || s.action == Mismatch then 1 else 0)
    ensures s.action == Match ==> s.newState.matchedPairs == g.matchedPairs + 1
                                  && s.newState.selectedCards == []
                                  && (s.newState.status == Finished <==> IsGameComplete(s.newState.cards))
                                  && (s.newState.status != Finished ==> s.newState.status == Playing)
    ensures s.action != Match ==> s.newState.matchedPairs == g.matchedPairs
                                  && s.newState.status == g.status
    ensures s.action == Mismatch ==> |s.newState.selectedCards| == 2
    ensures s.newState.totalPairs == g.totalPairs && s.newState.challenge == g.challenge
    ensures s.newState.timeRemaining == g.timeRemaining && s.newState.timeElapsed == g.timeElapsed
    ensures s.newState.startedAt == g.startedAt
  {
    if g.status != Playing then Selection(g, Invalid)
    else
      match FindIndex(g.cards, cardId)
      case None => Selection(g, Invalid)
      case Some(i) =>
        var card := g.cards[i];
        if card.isMatched || card.isFlipped then Selection(g, Invalid)
        else if |g.selectedCards| >= 2 then Selection(g, Invalid)
        else
          var updated := FlipById(g.cards, cardId);
          var newSelected := g.selectedCards + [card];
          if |newSelected| == 1 then
            Selection(g.(cards := updated, selectedCards := newSelected), Flip)
          else
            var first := newSelected[0];
            var second := newSelected[1];
            var moves := g.moves + 1;
            if IsMatch(first, second) then
              var final := MarkPair(updated, first.id, second.id);
              var status := if IsGameComplete(final) then Finished else Playing;
              Selection(g.(cards := final, selectedCards := [], matchedPairs := g.matchedPairs + 1,
                           moves := moves, status := status), Match)
            else
              Selection(g.(cards := updated, selectedCards := newSelected, moves := moves), Mismatch)
  }

  /** `GameService.resetMismatchedCards`: selected, unmatched cards go face
      down, every other card is kept, and the selection is emptied. */
  function ResetMismatchedCards(g: GameState): (r: GameState)
    ensures |r.cards| == |g.cards| && r.selectedCards == []
    ensures forall k :: 0 <= k < |g.cards| ==>
              r.cards[k] == if IsSelectedId(g.selectedCards, g.cards[k].id) && !g.cards[k].isMatched
                            then FlipCard(g.cards[k], false) else g.cards[k]
    ensures r.status == g.status && r.moves == g.moves && r.matchedPairs == g.matchedPairs
    ensures r.totalPairs == g.totalPairs && r.challenge == g.challenge
    ensures r.timeRemaining == g.timeRemaining && r.timeElapsed == g.timeElapsed
  {
    g.(cards := FlipDownSelected(g.cards, g.selectedCards), selectedCards := [])
  }

  /** `GameService.tick`: nothing happens unless the game is playing;
      otherwise one second passes, the remaining time never goes below
      zero, and reaching zero is a timeout. */
  function Tick(g: GameState): (r: GameState)
    ensures g.status != Playing ==> r == g
    ensures g.status == Playing ==>
              && r.timeElapsed == g.timeElapsed + 1
              && r.timeRemaining == (if g.timeRemaining > 0 then g.timeRemaining - 1 else 0)
              && (r.status == Timeout <==> r.timeRemaining == 0)
              && (r.status != Timeout ==> r.status == Playing)
    ensures r.cards == g.cards && r.selectedCards == g.selectedCards
    ensures r.moves == g.moves && r.matchedPairs == g.matchedPairs
    ensures r.totalPairs == g.totalPairs && r.challenge == g.challenge
  {
    if g.status != Playing then g
    else
      var timeRemaining := if g.timeRemaining > 0 then g.timeRemaining - 1 else 0;
      g.(timeRemaining := timeRemaining, timeElapsed := g.timeElapsed + 1,
         status := if timeRemaining == 0 then Timeout else g.status)
  }

  /** A tick with time left moves one second from the remaining time to
      the elapsed time. */
  lemma TickConservesTime(g: GameState)
    requires g.status == Playing && g.timeRemaining >= 1
    ensures Tick(g).timeRemaining + Tick(g).timeElapsed == g.timeRemaining + g.timeElapsed
  {
  }

  /** `GameService.pauseGame`: only the status changes. */
  function PauseGame(g: GameState): (r: GameState)
    ensures r.status == Paused
    ensures r.cards == g.cards && r.selectedCards == g.selectedCards
    ensures r.moves == g.moves && r.matchedPairs == g.matchedPairs && r.totalPairs == g.totalPairs
    ensures r.timeRemaining == g.timeRemaining && r.timeElapsed == g.timeElapsed
    ensures r.challenge == g.challenge && r.startedAt == g.startedAt
  {
    g.(status := Paused)
  }

  /** `GameService.resumeGame`: only the status changes, whatever it was. */
  function ResumeGame(g: GameState): (r: GameState)
    ensures r.status == Playing
    ensures r.cards == g.cards && r.selectedCards == g.selectedCards
    ensures r.moves == g.moves && r.matchedPairs == g.matchedPairs && r.totalPairs == g.totalPairs
    ensures r.timeRemaining == g.timeRemaining && r.timeElapsed == g.timeElapsed
    ensures r.challenge == g.challenge && r.startedAt == g.startedAt
  {
    g.(status := Playing)
  }

  /** Pausing and resuming gives back a playing state unchanged. */
  lemma PauseResumeRoundTrip(g: GameState)
    requires g.status == Playing
    ensures ResumeGame(PauseGame(g)) == g
  {
  }

  /** `GameService.finishGame`: no result without a challenge; otherwise
      the result is completed exactly when the game finished and copies the
      moves, the elapsed time and the challenge. */
  function FinishGame(g: GameState): (r: Option<GameResult>)
    ensures r.None? <==> g.challenge.None?
    ensures r.Some? ==> && r.value.completed == (g.status == Finished)
                        && r.value.moves == g.moves
                        && r.value.timeElapsed == g.timeElapsed
                        && r.value.challenge == g.challenge.value
  {
    match g.challenge
    case None => None
    case Some(c) => Some(GameResult(g.status == Finished, g.timeElapsed, g.moves, c))
  }

  /** `GameService.resetGame`: a fresh session for the challenge, valid,
      in countdown, with the whole time limit and nothing played. */
  function ResetGame(challenge: Challenge, draws: seq<nat>): (g: GameState)
    requires 2 * |challenge.cards| <= |draws| + 1
    ensures Valid(g) && g.status == Countdown && g.challenge == Some(challenge)
    ensures g.selectedCards == [] && g.matchedPairs == 0 && g.moves == 0
    ensures g.timeRemaining == challenge.timeLimit && g.timeElapsed == 0
    ensures multiset(g.cards) == multiset(Deck(challenge.cards))
  {
    InitializeGame(challenge, draws)
  }

  /** `GameService.calculateScore`: one point per second and five per move
      (lower is better). */
  function CalculateScore(result: GameResult): (n: nat)
    ensures n >= result.timeElapsed && n >= 5 * result.moves
  {
    result.timeElapsed + result.moves * 5
  }

  /** The score grows by five with each extra move and by one with each
      extra second, and nothing played scores zero: together, the score is
      the elapsed seconds plus five per move. */
  lemma ScoreIncrements(result: GameResult)
    ensures CalculateScore(result.(moves := result.moves + 1)) == CalculateScore(result) + 5
    ensures CalculateScore(result.(timeElapsed := result.timeElapsed + 1)) == CalculateScore(result) + 1
    ensures CalculateScore(result.(moves := 0, timeElapsed := 0)) == 0
  {
  }

  /* ---------------------------------------------------------------------
     Properties of selection.
     --------------------------------------------------------------------- */

  /** Once a game has finished or timed out, selecting and ticking change
      nothing. */
  lemma TerminalStates(g: GameState, cardId: string)
    requires g.status == Finished || g.status == Timeout
    ensures SelectCard(g, cardId) == Selection(g, Invalid)
    ensures Tick(g) == g
  {
  }

  /** In a valid state, a selection is refused exactly when the game is not
      playing, two cards are already selected, or no face-down unmatched
      card has the requested id. */
  lemma SelectInvalidIff(g: GameState, cardId: string)
    requires Valid(g)
    ensures SelectCard(g, cardId).action == Invalid <==>
              || g.status != Playing
              || |g.selectedCards| >= 2
              || !(exists k :: 0 <= k < |g.cards| && g.cards[k].id == cardId
                                && !g.cards[k].isFlipped && !g.cards[k].isMatched)
  {
    if exists k :: 0 <= k < |g.cards| && g.cards[k].id == cardId
                   && !g.cards[k].isFlipped && !g.cards[k].isMatched {
      var k :| 0 <= k < |g.cards| && g.cards[k].id == cardId
               && !g.cards[k].isFlipped && !g.cards[k].isMatched;
      FindIndexUnique(g.cards, k);
    }
  }

  /** A first selection turns exactly the chosen card face up and selects
      its (face-down) snapshot. */
  lemma SelectFirstFlips(g: GameState, cardId: string)
    requires Valid(g) && SelectCard(g, cardId).action == Flip
    ensures var j := FindIndex(g.cards, cardId).value;
            && SelectCard(g, cardId).newState.cards == g.cards[j := FlipCard(g.cards[j], true)]
            && SelectCard(g, cardId).newState.selectedCards == [g.cards[j]]
  {
    FlipByIdAt(g.cards, FindIndex(g.cards, cardId).value);
  }

  /** A matching second selection marks exactly the two selected cards as
      matched (and face up) and leaves every other card as it was. */
  lemma SelectMatchMarks(g: GameState, cardId: string)
    requires Valid(g) && SelectCard(g, cardId).action == Match
    ensures var i := FindIndex(g.cards, g.selectedCards[0].id).value;
            var j := FindIndex(g.cards, cardId).value;
            && i != j
            && SelectCard(g, cardId).newState.cards
               == g.cards[i := MarkAsMatched(g.cards[i])][j := MarkAsMatched(g.cards[j])]
  {
    MatchFinalCards(g, cardId);
  }

  /** A mismatching second selection leaves both cards face up and
      unmatched and keeps both selected, so every further selection is
      refused until the mismatch is reset. */
  lemma SelectMismatchLocks(g: GameState, cardId: string, nextId: string)
    requires Valid(g) && SelectCard(g, cardId).action == Mismatch
    ensures var j := FindIndex(g.cards, cardId).value;
            && SelectCard(g, cardId).newState.cards == g.cards[j := FlipCard(g.cards[j], true)]
            && SelectCard(g, cardId).newState.selectedCards == g.selectedCards + [g.cards[j]]
            && SelectCard(SelectCard(g, cardId).newState, nextId).action == Invalid
  {
    FlipByIdAt(g.cards, FindIndex(g.cards, cardId).value);
  }

  /* ---------------------------------------------------------------------
     Preservation of the invariant.
     --------------------------------------------------------------------- */

  /** The deck after a match, position by position. */
  lemma MatchFinalCards(g: GameState, cardId: string)
    requires Valid(g) && SelectCard(g, cardId).action == Match
    ensures |g.selectedCards| == 1
    ensures var i := FindIndex(g.cards, g.selectedCards[0].id).value;
            var j := FindIndex(g.cards, cardId).value;
            && i != j && i < |g.cards| && j < |g.cards|
            && !g.cards[i].isMatched && !g.cards[j].isMatched
            && SelectCard(g, cardId).newState.cards
               == g.cards[i := MarkAsMatched(g.cards[i])][j := MarkAsMatched(g.cards[j])]
  {
    MatchShape(g, cardId);
    var first := g.selectedCards[0];
    assert Held(g.cards, first);
    var i := FindIndex(g.cards, first.id).value;
    var j := FindIndex(g.cards, cardId).value;
    var updated := FlipById(g.cards, cardId);
    FlipByIdAt(g.cards, j);
    SameIdsFacts(g.cards, updated, cardId);
    MarkPairAt(updated, i, j);
    assert updated[i] == g.cards[i] && updated[j].id == g.cards[j].id;
    assert MarkAsMatched(updated[j]) == MarkAsMatched(g.cards[j]);
    OverwrittenUpdate(g.cards, i, j, FlipCard(g.cards[j], true),
                      MarkAsMatched(g.cards[i]), MarkAsMatched(g.cards[j]));
  }

  /** What a matching second selection computes, before any fact about the
      deck is used. */
  lemma MatchShape(g: GameState, cardId: string)
    requires SelectCard(g, cardId).action == Match
    ensures FindIndex(g.cards, cardId).Some? && |g.selectedCards| == 1
    ensures !g.cards[FindIndex(g.cards, cardId).value].isFlipped
    ensures SelectCard(g, cardId).newState.cards
            == MarkPair(FlipById(g.cards, cardId), g.selectedCards[0].id,
                        g.cards[FindIndex(g.cards, cardId).value].id)
  {
  }

  /** A position written twice keeps only its second value. */
  lemma OverwrittenUpdate<T>(s: seq<T>, i: nat, j: nat, x: T, a: T, b: T)
    requires i < |s| && j < |s| && i != j
    ensures s[j := x][i := a][j := b] == s[i := a][j := b]
  {
  }

  /** Turning an unmatched card face up keeps ids, lookups, the matched
      count and the matched-face-up property. */
  lemma FlipUpFacts(cards: seq<Card>, j: nat, id: string)
    requires j < |cards| && !cards[j].isMatched
    requires UniqueIds(cards) && MatchedFaceUp(cards)
    ensures var c := cards[j := FlipCard(cards[j], true)];
            && UniqueIds(c) && MatchedFaceUp(c) && |c| == |cards|
            && MatchedCount(c) == MatchedCount(cards)
            && FindIndex(c, id) == FindIndex(cards, id)
  {
    var c := cards[j := FlipCard(cards[j], true)];
    CountUpdate(IsMatchedCard, cards, j, FlipCard(cards[j], true));
    assert SameIds(cards, c);
    SameIdsFacts(cards, c, id);
  }

  /** Marking two distinct unmatched cards adds two matched cards and keeps
      ids, lookups and the matched-face-up property. */
  lemma MarkTwoFacts(cards: seq<Card>, i: nat, j: nat)
    requires i < |cards| && j < |cards| && i != j
    requires !cards[i].isMatched && !cards[j].isMatched
    requires UniqueIds(cards) && MatchedFaceUp(cards)
    ensures var c := cards[i := MarkAsMatched(cards[i])][j := MarkAsMatched(cards[j])];
            && UniqueIds(c) && MatchedFaceUp(c) && |c| == |cards|
            && MatchedCount(c) == MatchedCount(cards) + 2
  {
    var c1 := cards[i := MarkAsMatched(cards[i])];
    var c := c1[j := MarkAsMatched(cards[j])];
    CountUpdate(IsMatchedCard, cards, i, MarkAsMatched(cards[i]));
    CountUpdate(IsMatchedCard, c1, j, MarkAsMatched(cards[j]));
    assert SameIds(cards, c);
    SameIdsFacts(cards, c, "");
  }

  /** The card just turned face up is held. */
  lemma HeldNewlyFlipped(cards: seq<Card>, j: nat)
    requires j < |cards| && !cards[j].isMatched
    requires UniqueIds(cards) && MatchedFaceUp(cards)
    ensures Held(cards[j := FlipCard(cards[j], true)], cards[j])
  {
    FlipUpFacts(cards, j, cards[j].id);
    FindIndexUnique(cards, j);
  }

  /** Turning another card face up keeps a held card held. */
  lemma HeldAfterFlipUp(cards: seq<Card>, j: nat, c: Card)
    requires j < |cards| && !cards[j].isMatched && !cards[j].isFlipped
    requires UniqueIds(cards) && MatchedFaceUp(cards)
    requires Held(cards, c)
    ensures Held(cards[j := FlipCard(cards[j], true)], c)
    ensures c.id != cards[j].id
  {
    FlipUpFacts(cards, j, c.id);
    FindIndexUnique(cards, j);
  }

  /** A state obtained from a valid one with nothing selected by turning a
      face-down, unmatched card up and selecting it is valid. */
  lemma FirstSelectionValid(g: GameState, r: GameState, j: nat)
    requires Valid(g) && |g.selectedCards| == 0
    requires j < |g.cards| && !g.cards[j].isFlipped && !g.cards[j].isMatched
    requires r.cards == g.cards[j := FlipCard(g.cards[j], true)]
    requires r.selectedCards == [g.cards[j]]
    requires r.matchedPairs == g.matchedPairs && r.totalPairs == g.totalPairs
    requires r.status != Finished
    ensures Valid(r)
  {
    FlipUpFacts(g.cards, j, g.cards[j].id);
    HeldNewlyFlipped(g.cards, j);
  }

  /** A first selection keeps the invariant. */
  lemma SelectFlipValid(g: GameState, cardId: string)
    requires Valid(g) && SelectCard(g, cardId).action == Flip
    ensures Valid(SelectCard(g, cardId).newState)
  {
    SelectFirstFlips(g, cardId);
    FirstSelectionValid(g, SelectCard(g, cardId).newState, FindIndex(g.cards, cardId).value);
  }

  /** A state obtained from a valid one with a single selection by turning
      a further face-down, unmatched card up and selecting it too is valid. */
  lemma SecondSelectionValid(g: GameState, r: GameState, j: nat)
    requires Valid(g) && |g.selectedCards| == 1
    requires j < |g.cards| && !g.cards[j].isFlipped && !g.cards[j].isMatched
    requires r.cards == g.cards[j := FlipCard(g.cards[j], true)]
    requires r.selectedCards == g.selectedCards + [g.cards[j]]
    requires r.matchedPairs == g.matchedPairs && r.totalPairs == g.totalPairs
    requires r.status != Finished
    ensures Valid(r)
  {
    var first := g.selectedCards[0];
    assert Held(g.cards, first);
    FlipUpFacts(g.cards, j, first.id);
    HeldAfterFlipUp(g.cards, j, first);
    HeldNewlyFlipped(g.cards, j);
    assert r.selectedCards[0] == first && r.selectedCards[1] == g.cards[j];
  }

  /** A mismatching second selection keeps the invariant. */
  lemma SelectMismatchValid(g: GameState, cardId: string)
    requires Valid(g) && SelectCard(g, cardId).action == Mismatch
    ensures Valid(SelectCard(g, cardId).newState)
  {
    var j := FindIndex(g.cards, cardId).value;
    SelectMismatchLocks(g, cardId, cardId);
    SecondSelectionValid(g, SelectCard(g, cardId).newState, j);
  }

  /** A state obtained from a valid one by marking two distinct unmatched
      cards, counting one more pair and clearing the selection is valid
      when it is finished only if complete. */
  lemma MatchedStateValid(g: GameState, r: GameState, i: nat, j: nat)
    requires Valid(g)
    requires i < |g.cards| && j < |g.cards| && i != j
    requires !g.cards[i].isMatched && !g.cards[j].isMatched
    requires r.cards == g.cards[i := MarkAsMatched(g.cards[i])][j := MarkAsMatched(g.cards[j])]
    requires r.selectedCards == [] && r.matchedPairs == g.matchedPairs + 1
    requires r.totalPairs == g.totalPairs
    requires r.status == Finished ==> IsGameComplete(r.cards)
    ensures Valid(r)
  {
    MarkTwoFacts(g.cards, i, j);
  }

  /** A matching second selection keeps the invariant. */
  lemma SelectMatchValid(g: GameState, cardId: string)
    requires Valid(g) && SelectCard(g, cardId).action == Match
    ensures Valid(SelectCard(g, cardId).newState)
  {
    MatchFinalCards(g, cardId);
    var i := FindIndex(g.cards, g.selectedCards[0].id).value;
    var j := FindIndex(g.cards, cardId).value;
    MatchedStateValid(g, SelectCard(g, cardId).newState, i, j);
  }

  /** `selectCard` keeps the invariant. */
  lemma SelectPreservesValid(g: GameState, cardId: string)
    requires Valid(g)
    ensures Valid(SelectCard(g, cardId).newState)
  {
    match SelectCard(g, cardId).action
    case Invalid =>
    case Flip => SelectFlipValid(g, cardId);
    case Mismatch => SelectMismatchValid(g, cardId);
    case Match => SelectMatchValid(g, cardId);
  }

  /** `resetMismatchedCards` keeps the invariant: only unmatched cards are
      turned down, so the matched cards and their count are untouched. */
  lemma ResetPreservesValid(g: GameState)
    requires Valid(g)
    ensures Valid(ResetMismatchedCards(g))
  {
    var r := ResetMismatchedCards(g);
    SameIdsFacts(g.cards, r.cards, "");
    CountPointwise(IsMatchedCard, IsMatchedCard, g.cards, r.cards);
  }

  /** The remaining operations keep the invariant. */
  lemma OthersPreserveValid(g: GameState, now: int)
    requires Valid(g)
    ensures Valid(Tick(g)) && Valid(PauseGame(g)) && Valid(StartGame(g, now))
    ensures Valid(ResumeGame(g))
  {
  }

  /* ---------------------------------------------------------------------
     Runs: any sequence of the operations a session goes through.
     --------------------------------------------------------------------- */

  datatype Event = Select(cardId: string) | ResetMismatched | TickEvent | Pause | Resume | Start(now: int)

  /** The state after applying `events` in order. */
  function Step(g: GameState, e: Event): GameState {
    match e
    case Select(id) => SelectCard(g, id).newState
    case ResetMismatched => ResetMismatchedCards(g)
    case TickEvent => Tick(g)
    case Pause => PauseGame(g)
    case Resume => ResumeGame(g)
    case Start(now) => StartGame(g, now)
  }

  function Run(g: GameState, events: seq<Event>): GameState
    decreases |events|
  {
    if |events| == 0 then g else Run(Step(g, events[0]), events[1..])
  }

  /** Every state a session reaches from a valid one satisfies the
      invariant; along the way
      moves never decrease and the number of pairs never changes. */
  lemma {:induction false} RunPreservesValid(g: GameState, events: seq<Event>)
    requires Valid(g)
    ensures Valid(Run(g, events))
    ensures Run(g, events).moves >= g.moves
    ensures Run(g, events).totalPairs == g.totalPairs
    decreases |events|
  {
    if |events| > 0 {
      var e := events[0];
      match e {
        case Select(id) => SelectPreservesValid(g, id);
        case ResetMismatched => ResetPreservesValid(g);
        case TickEvent => OthersPreserveValid(g, 0);
        case Pause => OthersPreserveValid(g, 0);
        case Resume => OthersPreserveValid(g, 0);
        case Start(now) => OthersPreserveValid(g, now);
      }
      RunPreservesValid(Step(g, e), events[1..]);
    }
  }

  /** A fresh game's whole session keeps the invariant, so its matched
      pairs never exceed the pairs dealt. */
  lemma SessionBounded(challenge: Challenge, draws: seq<nat>, events: seq<Event>)
    requires 2 * |challenge.cards| <= |draws| + 1
    ensures Valid(Run(InitializeGame(challenge, draws), events))
    ensures Run(InitializeGame(challenge, draws), events).matchedPairs <= |challenge.cards|
  {
    RunPreservesValid(InitializeGame(challenge, draws), events);
  }
}
