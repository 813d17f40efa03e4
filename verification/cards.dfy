/** Cards and the card service (src/models/card.model.ts,
    src/services/card.service.ts): pair creation, deck generation, the
    Fisher-Yates shuffle, the per-card record updates and the queries over
    a deck. Card images are presentation data and are not modelled. */
module Cards {
  import opened Options
  import opened Seqs
  import opened Text
  import opened Challenges

  datatype Card = Card(id: string, value: string, isFlipped: bool, isMatched: bool)

  /* ---------------------------------------------------------------------
     Card ids: `<name>-1-<index>` and `<name>-2-<index>`. The number after
     the last '-' is the card's position in the unshuffled deck.
     --------------------------------------------------------------------- */

  /** The text after the last '-' of `s` (all of `s` when it has none). */
  function LastSegment(s: string): string {
    if |s| == 0 || s[|s| - 1] == '-' then ""
    else LastSegment(s[..|s| - 1]) + [s[|s| - 1]]
  }

  lemma {:induction false} LastSegmentOf(p: string, d: string)
    requires forall i :: 0 <= i < |d| ==> d[i] != '-'
    ensures LastSegment(p + "-" + d) == d
    decreases |d|
  {
    var s := p + "-" + d;
    if |d| > 0 {
      assert s[..|s| - 1] == p + "-" + d[..|d| - 1];
      LastSegmentOf(p, d[..|d| - 1]);
    }
  }

  /** The numeric suffix of a card id, when its last segment is a number. */
  function IdIndex(id: string): Option<nat> {
    var d := LastSegment(id);
    if |d| > 0 && AllDigits(d) then Some(ParseDecimal(d)) else None
  }

  /** Ids that carry different numeric suffixes are different ids. */
  lemma IdsWithDifferentIndexDiffer(a: string, b: string)
    requires IdIndex(a).Some? && IdIndex(b).Some? && IdIndex(a) != IdIndex(b)
    ensures a != b
  {
  }

  /** The id `<name><copy>-<index>` of a generated card. */
  function CardId(name: string, copy: string, index: nat): string {
    name + copy + "-" + NatToString(index)
  }

  /** The numeric suffix of a generated card id reads back as its index. */
  lemma CardIdIndex(name: string, copy: string, index: nat)
    ensures IdIndex(CardId(name, copy, index)) == Some(index)
  {
    var digits := NatToString(index);
    var id := (name + copy) + "-" + digits;
    assert forall i :: 0 <= i < |digits| ==> digits[i] != '-' by {
      assert AllDigits(digits);
    }
    LastSegmentOf(name + copy, digits);
    assert LastSegment(id) == digits;
    NatToStringRoundTrip(index);
    assert IdIndex(id) == Some(ParseDecimal(digits));
  }

  /** `CardService.createCardPair(item, startIndex)`: two face-down,
      unmatched cards showing the item's name, with ids `<name>-1-<start>`
      and `<name>-2-<start + 1>` (see CreateCardPairIds). */
  function CreateCardPair(item: CardItem, startIndex: nat): (pair: (Card, Card))
    ensures pair.0.value == item.name && pair.1.value == item.name
    ensures !pair.0.isFlipped && !pair.0.isMatched && !pair.1.isFlipped && !pair.1.isMatched
  {
    (Card(CardId(item.name, "-1", startIndex), item.name, false, false),
     Card(CardId(item.name, "-2", startIndex + 1), item.name, false, false))
  }

  /** The two ids of a pair end with `startIndex` and `startIndex + 1`. */
  lemma CreateCardPairIds(item: CardItem, startIndex: nat)
    ensures IdIndex(CreateCardPair(item, startIndex).0.id) == Some(startIndex)
    ensures IdIndex(CreateCardPair(item, startIndex).1.id) == Some(startIndex + 1)
  {
    CardIdIndex(item.name, "-1", startIndex);
    CardIdIndex(item.name, "-2", startIndex + 1);
  }

  /** The unshuffled deck built by `generateCards`: item k contributes the
      pair created with start index 2k, pairs concatenated in item order
      (see DeckCard). */
  function Deck(items: seq<CardItem>): (r: seq<Card>)
    ensures |r| == 2 * |items|
  {
    if |items| == 0 then []
    else
      var n := |items| - 1;
      var pair := CreateCardPair(items[n], 2 * n);
      Deck(items[..n]) + [pair.0, pair.1]
  }

  /** Adding an item leaves the earlier part of the deck in place. */
  lemma DeckPrefixStable(items: seq<CardItem>, i: nat)
    requires 0 < |items| && i < 2 * (|items| - 1)
    ensures Deck(items)[i] == Deck(items[..|items| - 1])[i]
  {
  }

  /** The last item's pair closes the deck. */
  lemma DeckLastPair(items: seq<CardItem>)
    requires 0 < |items|
    ensures var n := |items| - 1;
            Deck(items)[2 * n] == CreateCardPair(items[n], 2 * n).0
            && Deck(items)[2 * n + 1] == CreateCardPair(items[n], 2 * n).1
  {
  }

  /** Positions 2k and 2k + 1 of the deck hold the pair made for item k
      with start index 2k. */
  lemma {:induction false} DeckPair(items: seq<CardItem>, k: nat)
    requires k < |items|
    ensures Deck(items)[2 * k] == CreateCardPair(items[k], 2 * k).0
    ensures Deck(items)[2 * k + 1] == CreateCardPair(items[k], 2 * k).1
    decreases |items|
  {
    var n := |items| - 1;
    if k < n {
      var p := CreateCardPair(items[k], 2 * k);
      assert items[..n][k] == items[k];
      calc {
        Deck(items)[2 * k];
        { DeckPrefixStable(items, 2 * k); }
        Deck(items[..n])[2 * k];
        { DeckPair(items[..n], k); }
        p.0;
      }
      calc {
        Deck(items)[2 * k + 1];
        { DeckPrefixStable(items, 2 * k + 1); }
        Deck(items[..n])[2 * k + 1];
        { DeckPair(items[..n], k); }
        p.1;
      }
    } else {
      assert k == n;
      DeckLastPair(items);
    }
  }

  /** Card 2k of the deck carries 2k as its numeric id suffix. */
  lemma DeckFirstIndex(items: seq<CardItem>, k: nat)
    requires k < |items|
    ensures IdIndex(Deck(items)[2 * k].id) == Some(2 * k)
  {
    var c := Deck(items)[2 * k];
    assert c.id == CardId(items[k].name, "-1", 2 * k) by { DeckPair(items, k); }
    CardIdIndex(items[k].name, "-1", 2 * k);
  }

  /** Card 2k + 1 of the deck carries 2k + 1 as its numeric id suffix. */
  lemma DeckSecondIndex(items: seq<CardItem>, k: nat)
    requires k < |items|
    ensures IdIndex(Deck(items)[2 * k + 1].id) == Some(2 * k + 1)
  {
    var c := Deck(items)[2 * k + 1];
    assert c.id == CardId(items[k].name, "-2", 2 * k + 1) by { DeckPair(items, k); }
    CardIdIndex(items[k].name, "-2", 2 * k + 1);
  }

  /** Card i of the unshuffled deck is face down and unmatched. */
  lemma DeckCardFaceDown(items: seq<CardItem>, i: nat)
    requires i < 2 * |items|
    ensures !Deck(items)[i].isFlipped && !Deck(items)[i].isMatched
  {
    var k := i / 2;
    if i % 2 == 0 {
      assert 2 * k == i;
      DeckPair(items, k);
    } else {
      assert 2 * k + 1 == i;
      DeckPair(items, k);
    }
  }

  /** Card i of the unshuffled deck carries i as its numeric id suffix. */
  lemma DeckCardIndex(items: seq<CardItem>, i: nat)
    requires i < 2 * |items|
    ensures IdIndex(Deck(items)[i].id) == Some(i)
  {
    var k := i / 2;
    if i % 2 == 0 {
      assert 2 * k == i;
      DeckFirstIndex(items, k);
    } else {
      assert 2 * k + 1 == i;
      DeckSecondIndex(items, k);
    }
  }

  /** No two cards of the deck share an id. */
  predicate UniqueIds(cards: seq<Card>) {
    forall i, j :: 0 <= i < j < |cards| ==> cards[i].id != cards[j].id
  }

  /** All ids of a generated deck are distinct, whatever the item names. */
  lemma DeckIdsUnique(items: seq<CardItem>)
    ensures UniqueIds(Deck(items))
  {
    var r := Deck(items);
    forall i, j | 0 <= i < j < |r|
      ensures r[i].id != r[j].id
    {
      DeckCardIndex(items, i);
      DeckCardIndex(items, j);
      IdsWithDifferentIndexDiffer(r[i].id, r[j].id);
    }
  }

  /* ---------------------------------------------------------------------
     Shuffling. `Math.random` is replaced by a sequence of draws: the step
     for index i swaps it with `draws[k] % (i + 1)`, which, like
     `Math.floor(Math.random() * (i + 1))`, is some index in [0, i].
     --------------------------------------------------------------------- */

  /** The Fisher-Yates loop from index i down to 1. */
  function FisherYates<T>(s: seq<T>, i: nat, draws: seq<nat>): (r: seq<T>)
    requires i < |s| && i <= |draws|
    ensures |r| == |s|
    decreases i
  {
    if i == 0 then s
    else FisherYates(Swap(s, i, draws[0] % (i + 1)), i - 1, draws[1..])
  }

  /** Every turn is a swap, so the loop only rearranges the elements. */
  lemma {:induction false} FisherYatesPermutes<T>(s: seq<T>, i: nat, draws: seq<nat>)
    requires i < |s| && i <= |draws|
    ensures multiset(FisherYates(s, i, draws)) == multiset(s)
    decreases i
  {
    if i > 0 {
      var t := Swap(s, i, draws[0] % (i + 1));
      SwapMultiset(s, i, draws[0] % (i + 1));
      FisherYatesPermutes(t, i - 1, draws[1..]);
    }
  }

  /** `CardService.shuffle(array)`: a permutation of a copy of the input
      (the input value itself is never changed). One draw per swap step. */
  function Shuffle<T>(a: seq<T>, draws: seq<nat>): (r: seq<T>)
    requires |a| <= |draws| + 1
    ensures |r| == |a| && multiset(r) == multiset(a)
  {
    if |a| <= 1 then a
    else
      FisherYatesPermutes(a, |a| - 1, draws);
      FisherYates(a, |a| - 1, draws)
  }

  /** Draws that always pick the current index leave the order unchanged:
      the identity permutation is among the shuffle's outcomes. */
  lemma {:induction false} FisherYatesIdentity<T>(s: seq<T>, i: nat, draws: seq<nat>)
    requires i < |s| && i <= |draws|
    requires forall k :: 0 <= k < i ==> draws[k] == i - k
    ensures FisherYates(s, i, draws) == s
    decreases i
  {
    if i > 0 {
      assert Swap(s, i, draws[0] % (i + 1)) == s;
      FisherYatesIdentity(s, i - 1, draws[1..]);
    }
  }

  /** Shuffling keeps elements whose keys are pairwise distinct so. */
  lemma {:induction false} FisherYatesKeepsKeysDistinct<T, K>(s: seq<T>, i: nat, draws: seq<nat>, key: T -> K)
    requires i < |s| && i <= |draws|
    requires forall p, q :: 0 <= p < q < |s| ==> key(s[p]) != key(s[q])
    ensures forall p, q :: 0 <= p < q < |s| ==>
              key(FisherYates(s, i, draws)[p]) != key(FisherYates(s, i, draws)[q])
    decreases i
  {
    if i > 0 {
      var j := draws[0] % (i + 1);
      var t := Swap(s, i, j);
      forall p, q | 0 <= p < q < |t|
        ensures key(t[p]) != key(t[q])
      {
        var p' := if p == i then j else if p == j then i else p;
        var q' := if q == i then j else if q == j then i else q;
        assert t[p] == s[p'] && t[q] == s[q'];
        if p' < q' {
          assert key(s[p']) != key(s[q']);
        } else {
          assert key(s[q']) != key(s[p']);
        }
      }
      FisherYatesKeepsKeysDistinct(t, i - 1, draws[1..], key);
    }
  }

  lemma ShuffleKeepsIdsUnique(cards: seq<Card>, draws: seq<nat>)
    requires |cards| <= |draws| + 1
    requires UniqueIds(cards)
    ensures UniqueIds(Shuffle(cards, draws))
  {
    if |cards| > 1 {
      FisherYatesKeepsKeysDistinct(cards, |cards| - 1, draws, (c: Card) => c.id);
    }
  }

  /** `CardService.generateCards(challenge)`: the shuffled deck. It has two
      cards per item, all face down and unmatched, with pairwise distinct
      ids, and is a permutation of the unshuffled deck. */
  function GenerateCards(challenge: Challenge, draws: seq<nat>): (r: seq<Card>)
    requires 2 * |challenge.cards| <= |draws| + 1
    ensures |r| == 2 * |challenge.cards|
    ensures multiset(r) == multiset(Deck(challenge.cards))
    ensures UniqueIds(r)
    ensures forall i :: 0 <= i < |r| ==> !r[i].isFlipped && !r[i].isMatched
  {
    var deck := Deck(challenge.cards);
    DeckIdsUnique(challenge.cards);
    ShuffleKeepsIdsUnique(deck, draws);
    var r := Shuffle(deck, draws);
    forall i | 0 <= i < |r|
      ensures !r[i].isFlipped && !r[i].isMatched
    {
      assert r[i] in multiset(deck);
      var j :| 0 <= j < |deck| && deck[j] == r[i];
      DeckCardFaceDown(challenge.cards, j);
    }
    r
  }

  /* ---------------------------------------------------------------------
     Every value appears exactly twice in a deck of distinctly named items.
     --------------------------------------------------------------------- */

  function HasValue(v: string): Card -> bool {
    (c: Card) => c.value == v
  }

  function HasName(v: string): CardItem -> bool {
    (item: CardItem) => item.name == v
  }

  /** Two cards per item: a value occurs twice as often in the deck as the
      name among the items. */
  lemma {:induction false} DeckValueCount(items: seq<CardItem>, v: string)
    ensures Count(HasValue(v), Deck(items)) == 2 * Count(HasName(v), items)
    decreases |items|
  {
    if |items| > 0 {
      var n := |items| - 1;
      var pair := CreateCardPair(items[n], 2 * n);
      assert Deck(items) == Deck(items[..n]) + [pair.0, pair.1];
      SplitLast(items);
      DeckValueCount(items[..n], v);
      CountConcat(HasValue(v), Deck(items[..n]), [pair.0, pair.1]);
      CountConcat(HasName(v), items[..n], [items[n]]);
      assert [pair.0, pair.1][1..] == [pair.1];
      assert Filter(HasValue(v), [pair.1]) == if pair.1.value == v then [pair.1] else [];
      assert Filter(HasName(v), [items[n]]) == if items[n].name == v then [items[n]] else [];
      assert Count(HasValue(v), [pair.0, pair.1]) == 2 * Count(HasName(v), [items[n]]);
    }
  }

  /** In a list of distinctly named items each name occurs once. */
  lemma {:induction false} DistinctNameCountsOnce(items: seq<CardItem>, k: nat)
    requires k < |items| && DistinctNames(items)
    ensures Count(HasName(items[k].name), items) == 1
    decreases |items|
  {
    var v := items[k].name;
    var n := |items| - 1;
    assert items == items[..n] + [items[n]];
    CountConcat(HasName(v), items[..n], [items[n]]);
    if k == n {
      FilterDropsAll(HasName(v), items[..n]);
    } else {
      DistinctNameCountsOnce(items[..n], k);
    }
  }

  /** Equal multisets have equal counts, for any predicate. */
  lemma CountPermutation<T(!new)>(f: T -> bool, a: seq<T>, b: seq<T>)
    requires multiset(a) == multiset(b)
    ensures Count(f, a) == Count(f, b)
  {
    FilterMultiset(f, a);
    FilterMultiset(f, b);
    assert multiset(Filter(f, a)) == multiset(Filter(f, b));
    assert |multiset(Filter(f, a))| == |Filter(f, a)|;
    assert |multiset(Filter(f, b))| == |Filter(f, b)|;
  }

  /** A generated deck of a challenge whose items have distinct names shows
      each item's name on exactly two cards. */
  lemma GeneratedValuesTwice(challenge: Challenge, draws: seq<nat>, k: nat)
    requires 2 * |challenge.cards| <= |draws| + 1
    requires DistinctNames(challenge.cards) && k < |challenge.cards|
    ensures Count(HasValue(challenge.cards[k].name), GenerateCards(challenge, draws)) == 2
  {
    var v := challenge.cards[k].name;
    CountPermutation(HasValue(v), GenerateCards(challenge, draws), Deck(challenge.cards));
    DeckValueCount(challenge.cards, v);
    DistinctNameCountsOnce(challenge.cards, k);
  }

  /** The same for every challenge built from a built-in theme. */
  lemma BuiltInDeckValuesTwice(t: nat, difficulty: Difficulty, draws: seq<nat>, k: nat)
    requires t < |ChallengeThemes| && k < 6 && 12 <= |draws| + 1
    ensures var c := CreateChallenge(ChallengeThemes[t], difficulty);
            |GenerateCards(c, draws)| == 12
            && Count(HasValue(c.cards[k].name), GenerateCards(c, draws)) == 2
  {
    BuiltInChallengeWellFormed(t, difficulty);
    GeneratedValuesTwice(CreateChallenge(ChallengeThemes[t], difficulty), draws, k);
  }

  /* ---------------------------------------------------------------------
     Per-card updates and queries.
     --------------------------------------------------------------------- */

  /** `CardService.isMatch`: same value, different ids. */
  predicate IsMatch(a: Card, b: Card) {
    a.value == b.value && a.id != b.id
  }

  /** Matching is symmetric and never pairs a card with itself. */
  lemma IsMatchSymmetricIrreflexive(a: Card, b: Card)
    ensures IsMatch(a, b) == IsMatch(b, a)
    ensures !IsMatch(a, a)
  {
  }

  /** `CardService.flipCard`: only the face changes. */
  function FlipCard(c: Card, flipped: bool): (r: Card)
    ensures r.id == c.id && r.value == c.value && r.isMatched == c.isMatched
    ensures r.isFlipped == flipped
  {
    c.(isFlipped := flipped)
  }

  /** `CardService.markAsMatched`: resolved and face up. */
  function MarkAsMatched(c: Card): (r: Card)
    ensures r.id == c.id && r.value == c.value
    ensures r.isMatched && r.isFlipped
  {
    c.(isMatched := true, isFlipped := true)
  }

  /** `CardService.resetCard`: face down and unresolved. */
  function ResetCard(c: Card): (r: Card)
    ensures r.id == c.id && r.value == c.value
    ensures !r.isMatched && !r.isFlipped
  {
    c.(isFlipped := false, isMatched := false)
  }

  /** A later flip overrides an earlier one, and flipping a matched card
      face up leaves it as marking it matched would. */
  lemma CardUpdatesCompose(c: Card, x: bool, y: bool)
    ensures FlipCard(FlipCard(c, x), y) == FlipCard(c, y)
    ensures MarkAsMatched(FlipCard(c, x)) == MarkAsMatched(c)
    ensures ResetCard(MarkAsMatched(c)) == ResetCard(c)
    ensures c.isMatched ==> FlipCard(MarkAsMatched(c), true) == MarkAsMatched(c)
  {
  }

  predicate IsMatchedCard(c: Card) {
    c.isMatched
  }

  /** Number of matched cards. */
  function MatchedCount(cards: seq<Card>): nat {
    Count(IsMatchedCard, cards)
  }

  /** Half of m is a whole number exactly when m is even. */
  lemma HalfIsWholeWhenEven(m: nat)
    ensures var r := m as real / 2.0;
            (r.Floor as real == r) <==> m % 2 == 0
  {
    var h := m / 2;
    var r := m as real / 2.0;
    if m % 2 == 0 {
      assert m == 2 * h;
      assert r == h as real;
    } else {
      assert m == 2 * h + 1;
      assert r == h as real + 0.5;
      assert r.Floor == h;
    }
  }

  /** `CardService.countMatchedPairs`: half the matched cards, a whole
      number exactly when that count is even. */
  function CountMatchedPairs(cards: seq<Card>): (r: real)
    ensures r * 2.0 == MatchedCount(cards) as real
    ensures (r.Floor as real == r) <==> MatchedCount(cards) % 2 == 0
  {
    var m := MatchedCount(cards);
    HalfIsWholeWhenEven(m);
    m as real / 2.0
  }

  /** `CardService.isGameComplete`: every card is matched (true for no cards). */
  function IsGameComplete(cards: seq<Card>): (r: bool)
    ensures r <==> forall i :: 0 <= i < |cards| ==> cards[i].isMatched
  {
    if |cards| == 0 then true
    else cards[0].isMatched && IsGameComplete(cards[1..])
  }

  /** The deck is complete exactly when all of its cards are counted as matched. */
  lemma CompleteIffAllCounted(cards: seq<Card>)
    ensures IsGameComplete(cards) <==> MatchedCount(cards) == |cards|
  {
    CountAll(IsMatchedCard, cards);
  }

  predicate IsFaceUpUnresolved(c: Card) {
    c.isFlipped && !c.isMatched
  }

  /** `CardService.getFlippedUnmatchedCards`: exactly the face-up, unmatched
      cards, with their multiplicity and in deck order. */
  function GetFlippedUnmatchedCards(cards: seq<Card>): (r: seq<Card>)
    ensures forall i :: 0 <= i < |r| ==> r[i].isFlipped && !r[i].isMatched
    ensures forall c :: multiset(r)[c] == if c.isFlipped && !c.isMatched then multiset(cards)[c] else 0
    ensures IsSubsequence(r, cards)
  {
    FilterMultiset(IsFaceUpUnresolved, cards);
    FilterSubsequence(IsFaceUpUnresolved, cards);
    Filter(IsFaceUpUnresolved, cards)
  }
}
