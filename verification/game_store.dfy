/** The pure updates of the game store (src/store/game.ts): its initial
    value, `clearGame`, `resetGame`'s guard, the card preview toggles, and
    the follow-up that `selectCard` schedules. The interval timer, its id
    and the haptic calls are not part of the model. */
module GameStore {
  import opened Options
  import opened Challenges
  import opened Cards
  import opened Game

  /** The store's UI flags. */
  datatype UiFlags = UiFlags(
    showVictoryModal: bool,
    showDefeatModal: bool,
    showExitModal: bool,
    showCountdown: bool,
    shouldAnimateEntry: bool,
    isPreviewingCards: bool)

  datatype Store = Store(game: GameState, ui: UiFlags)

  const NoFlags: UiFlags := UiFlags(false, false, false, false, false, false)

  /** The store as created: idle, no challenge, no cards, counters at zero,
      every flag off. */
  const InitialStore: Store :=
    Store(GameState(Idle, None, [], [], 0, 0, 0, 0, 0, None), NoFlags)

  /** The initial store holds a valid (empty) game. */
  lemma InitialStoreValid()
    ensures Valid(InitialStore.game)
    ensures IsGameComplete(InitialStore.game.cards)
  {
    FreshDeckUnmatched([]);
  }

  /** `clearGame`: every game field and UI flag goes back to its initial
      value, whatever the store held. */
  function ClearGame(s: Store): (r: Store)
    ensures r.game.status == Idle && r.game.challenge == None
    ensures r.game.cards == [] && r.game.selectedCards == []
    ensures r.game.matchedPairs == 0 && r.game.totalPairs == 0 && r.game.moves == 0
    ensures r.game.timeRemaining == 0 && r.game.timeElapsed == 0 && r.game.startedAt == None
    ensures !r.ui.showVictoryModal && !r.ui.showDefeatModal && !r.ui.showExitModal
    ensures !r.ui.showCountdown && !r.ui.shouldAnimateEntry && !r.ui.isPreviewingCards
  {
    Store(GameState(Idle, None, [], [], 0, 0, 0, 0, 0, None), NoFlags)
  }

  /** Clearing forgets everything: it yields the initial store from any
      store, so it is idempotent. */
  lemma ClearGameIsInitial(s: Store)
    ensures ClearGame(s) == InitialStore
    ensures ClearGame(ClearGame(s)) == ClearGame(s)
  {
  }

  /** `initGame(challenge)`: the game part becomes a fresh session; the UI
      flags are kept. */
  function InitGame(s: Store, challenge: Challenge, draws: seq<nat>): (r: Store)
    requires 2 * |challenge.cards| <= |draws| + 1
    ensures Valid(r.game) && r.game.status == Countdown && r.game.challenge == Some(challenge)
    ensures r.ui == s.ui
  {
    Store(InitializeGame(challenge, draws), s.ui)
  }

  /** `resetGame`: nothing happens without a challenge; otherwise a fresh
      session of the same challenge replaces the game. */
  function ResetGame(s: Store, draws: seq<nat>): (r: Store)
    requires s.game.challenge.Some? ==> 2 * |s.game.challenge.value.cards| <= |draws| + 1
    ensures s.game.challenge.None? ==> r == s
    ensures s.game.challenge.Some? ==>
              && r.game == Game.ResetGame(s.game.challenge.value, draws)
              && r.game.moves == 0 && r.game.matchedPairs == 0 && Valid(r.game)
              && r.game.challenge == s.game.challenge
    ensures r.ui == s.ui
  {
    match s.game.challenge
    case None => s
    case Some(c) => Store(Game.ResetGame(c, draws), s.ui)
  }

  /** `previewAllCards`: every card face up, all else about the cards kept,
      and the preview flag on. */
  function PreviewAllCards(s: Store): (r: Store)
    ensures |r.game.cards| == |s.game.cards|
    ensures forall k :: 0 <= k < |s.game.cards| ==> r.game.cards[k] == FlipCard(s.game.cards[k], true)
    ensures r.game == s.game.(cards := r.game.cards)
    ensures r.ui == s.ui.(isPreviewingCards := true)
  {
    var flipped := seq(|s.game.cards|, k requires 0 <= k < |s.game.cards| => s.game.cards[k].(isFlipped := true));
    Store(s.game.(cards := flipped), s.ui.(isPreviewingCards := true))
  }

  /** `hideAllCards`: every card face down, matched ones included, all else
      about the cards kept, and the preview flag off. */
  function HideAllCards(s: Store): (r: Store)
    ensures |r.game.cards| == |s.game.cards|
    ensures forall k :: 0 <= k < |s.game.cards| ==> r.game.cards[k] == FlipCard(s.game.cards[k], false)
    ensures r.game == s.game.(cards := r.game.cards)
    ensures r.ui == s.ui.(isPreviewingCards := false)
  {
    var hidden := seq(|s.game.cards|, k requires 0 <= k < |s.game.cards| => s.game.cards[k].(isFlipped := false));
    Store(s.game.(cards := hidden), s.ui.(isPreviewingCards := false))
  }

  /** Previewing and then hiding a deck whose cards are all face down gives
      the same game back. */
  lemma PreviewThenHide(s: Store)
    requires forall k :: 0 <= k < |s.game.cards| ==> !s.game.cards[k].isFlipped
    ensures HideAllCards(PreviewAllCards(s)).game == s.game
    ensures HideAllCards(PreviewAllCards(s)).ui == s.ui.(isPreviewingCards := false)
  {
    assert HideAllCards(PreviewAllCards(s)).game.cards == s.game.cards;
  }

  /** Previewing keeps a valid game valid. */
  lemma PreviewKeepsValid(s: Store)
    requires Valid(s.game)
    ensures Valid(PreviewAllCards(s).game)
  {
    var r := PreviewAllCards(s);
    assert SameIds(s.game.cards, r.game.cards);
    SameIdsFacts(s.game.cards, r.game.cards, "");
    Seqs.CountPointwise(IsMatchedCard, IsMatchedCard, s.game.cards, r.game.cards);
    forall i | 0 <= i < |s.game.selectedCards|
      ensures Held(r.game.cards, s.game.selectedCards[i])
    {
      var c := s.game.selectedCards[i];
      assert Held(s.game.cards, c);
      SameIdsFacts(s.game.cards, r.game.cards, c.id);
    }
  }

  /** Hiding keeps a valid game valid when nothing is matched or selected
      (the state right after `initGame`, where it is used)... */
  lemma HideKeepsValidWhenFresh(s: Store)
    requires Valid(s.game) && MatchedCount(s.game.cards) == 0 && s.game.selectedCards == []
    ensures Valid(HideAllCards(s).game)
  {
    var r := HideAllCards(s);
    assert SameIds(s.game.cards, r.game.cards);
    SameIdsFacts(s.game.cards, r.game.cards, "");
    Seqs.CountPointwise(IsMatchedCard, IsMatchedCard, s.game.cards, r.game.cards);
    Seqs.CountAll(IsMatchedCard, r.game.cards);
    forall k | 0 <= k < |r.game.cards|
      ensures !r.game.cards[k].isMatched
    {
      FreshCountZero(r.game.cards, k);
    }
  }

  /** ...but mid-game, once a pair is matched, it breaks "matched cards are
      face up". */
  lemma HideBreaksMatchedFaceUp(s: Store, k: nat)
    requires k < |s.game.cards| && s.game.cards[k].isMatched
    ensures !MatchedFaceUp(HideAllCards(s).game.cards)
  {
    assert HideAllCards(s).game.cards[k].isMatched;
  }

  /** A card counted as unmatched everywhere is unmatched. */
  lemma FreshCountZero(cards: seq<Card>, k: nat)
    requires k < |cards| && MatchedCount(cards) == 0
    ensures !cards[k].isMatched
  {
    if cards[k].isMatched {
      Seqs.CountUpdate(IsMatchedCard, cards, k, ResetCard(cards[k]));
    }
  }

  /** What `selectCard` leaves for later: after a finishing match the store
      calls `finishGame` (after 500 ms), after a mismatch it calls
      `resetMismatchedCards` (after 1000 ms). */
  datatype FollowUp = NoFollowUp | FinishLater | ResetLater

  /** `selectCard(cardId)` in the store: the service's new state replaces
      the game, and the scheduled follow-up is returned. */
  function StoreSelectCard(s: Store, cardId: string): (r: (Store, FollowUp))
    ensures r.0.game == SelectCard(s.game, cardId).newState && r.0.ui == s.ui
    ensures r.1 == FinishLater <==> SelectCard(s.game, cardId).action == Match && r.0.game.status == Finished
    ensures r.1 == ResetLater <==> SelectCard(s.game, cardId).action == Mismatch
  {
    var sel := SelectCard(s.game, cardId);
    var follow :=
      match sel.action
      case Match => if sel.newState.status == Finished then FinishLater else NoFollowUp
      case Mismatch => ResetLater
      case _ => NoFollowUp;
    (Store(sel.newState, s.ui), follow)
  }

  /** Carrying out the follow-up of a mismatch before any other event
      ends, still playing and valid, with the move counted and nothing
      selected, so selection is possible again. A pause or a tick that runs
      the clock out during the delay leaves its own status instead. */
  lemma MismatchFollowUpUnlocks(s: Store, cardId: string)
    requires Valid(s.game)
    requires StoreSelectCard(s, cardId).1 == ResetLater
    ensures var after := ResetMismatchedCards(StoreSelectCard(s, cardId).0.game);
            && Valid(after) && after.selectedCards == []
            && after.moves == s.game.moves + 1
            && after.status == Playing
  {
    var g1 := StoreSelectCard(s, cardId).0.game;
    SelectPreservesValid(s.game, cardId);
    ResetPreservesValid(g1);
  }

  /** A finishing match's follow-up, when it runs before any other event,
      yields a completed result. */
  lemma FinishFollowUpCompleted(s: Store, cardId: string)
    requires StoreSelectCard(s, cardId).1 == FinishLater
    requires s.game.challenge.Some?
    ensures FinishGame(StoreSelectCard(s, cardId).0.game).Some?
    ensures FinishGame(StoreSelectCard(s, cardId).0.game).value.completed
  {
  }

  /** The finish follow-up reads the store only when it runs: a "play
      again" reset that lands first leaves it a fresh session, reported as
      not completed and with no moves. */
  lemma ResetBeforeFinishNotCompleted(s: Store, cardId: string, draws: seq<nat>)
    requires StoreSelectCard(s, cardId).1 == FinishLater
    requires s.game.challenge.Some?
    requires 2 * |s.game.challenge.value.cards| <= |draws| + 1
    ensures var after := ResetGame(StoreSelectCard(s, cardId).0, draws).game;
            && FinishGame(after).Some?
            && !FinishGame(after).value.completed
            && FinishGame(after).value.moves == 0
  {
  }
}
