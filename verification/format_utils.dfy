/** The free helpers of src/utils/format.ts: a third copy of the `MM:SS`
    clock, an array shuffle written as a loop, and `createCardPairs`, which
    builds a deck whose card ids are `<item>-1` and `<item>-2`. */
module FormatUtils {
  import opened Seqs
  import opened Text
  import opened Cards
  import TimeFormat

  /** `formatTime(seconds)`, written as the file writes it; it shows the same
      clock as the timer service's formatter on every input. */
  function FormatTime(seconds: nat): (r: string)
    ensures r == TimeFormat.FormatTime(seconds)
  {
    PadStart2(NatToString(seconds / 60)) + ":" + PadStart2(NatToString(seconds % 60))
  }

  /** `shuffleArray(array)`: the same Fisher-Yates loop as the card service,
      over a copy of the input, with `Math.random` replaced by `draws`. The
      result is a permutation, and it is exactly the card service's
      shuffle for the same draws. */
  method ShuffleArray<T>(a: seq<T>, draws: seq<nat>) returns (r: seq<T>)
    requires |a| <= |draws| + 1
    ensures |r| == |a| && multiset(r) == multiset(a)
    ensures r == Shuffle(a, draws)
  {
    r := a;
    if |a| <= 1 {
      return;
    }
    var i: nat := |a| - 1;
    var k: nat := 0;
    while i > 0
      invariant i < |a| && k + i == |a| - 1
      invariant r == Turns(a, k, draws)
      decreases i
    {
      var j := draws[k] % (i + 1);
      r, i, k := Swap(r, i, j), i - 1, k + 1;
    }
    TurnsReachShuffle(a, draws, k, 0);
    assert r == FisherYates(r, 0, draws[k..]);
    assert r == Shuffle(a, draws);
  }

  /** The array after the first k turns of the loop: turn t swaps index
      |a| - t with the index drawn by `draws[t - 1]`. */
  function Turns<T>(a: seq<T>, k: nat, draws: seq<nat>): (r: seq<T>)
    requires k < |a| && k <= |draws|
    ensures |r| == |a|
    decreases k
  {
    if k == 0 then a
    else
      var i := |a| - k;
      Swap(Turns(a, k - 1, draws), i, draws[k - 1] % (i + 1))
  }

  /** Running the remaining turns of the card service's recursive shuffle
      after the loop's first k turns gives the whole shuffle: the loop and
      the recursion make the same swaps in the same order. */
  lemma {:induction false} TurnsReachShuffle<T>(a: seq<T>, draws: seq<nat>, k: nat, i: nat)
    requires k < |a| <= |draws| + 1 && i + k == |a| - 1
    ensures FisherYates(Turns(a, k, draws), i, draws[k..]) == FisherYates(a, |a| - 1, draws)
    decreases k
  {
    if k == 0 {
      assert draws[0..] == draws;
    } else {
      var prev := Turns(a, k - 1, draws);
      var d := draws[k - 1..];
      assert d[0] == draws[k - 1] && d[1..] == draws[k..];
      assert Turns(a, k, draws) == Swap(prev, i + 1, d[0] % (i + 2));
      FisherYatesUnfold(prev, i + 1, d);
      TurnsReachShuffle(a, draws, k - 1, i + 1);
    }
  }

  /** One unfolding of the card service's recursive loop. */
  lemma FisherYatesUnfold<T>(s: seq<T>, i: nat, d: seq<nat>)
    requires 0 < i < |s| && i <= |d|
    ensures FisherYates(s, i, d) == FisherYates(Swap(s, i, d[0] % (i + 1)), i - 1, d[1..])
  {
  }

  /** The two cards of one item, before shuffling. */
  function ItemPair(item: string): (pair: seq<Card>)
    ensures |pair| == 2
  {
    [Card(item + "-1", item, false, false), Card(item + "-2", item, false, false)]
  }

  /** `items.flatMap(...)`: two cards per item, in item order. */
  function Pairs(items: seq<string>): (r: seq<Card>)
    ensures |r| == 2 * |items|
  {
    if |items| == 0 then [] else Pairs(items[..|items| - 1]) + ItemPair(items[|items| - 1])
  }

  /** Card 2k is `<item k>-1` and card 2k+1 is `<item k>-2`; both show
      item k and are face down and unmatched. */
  lemma {:induction false} PairsAt(items: seq<string>, k: nat)
    requires k < |items|
    ensures Pairs(items)[2 * k] == Card(items[k] + "-1", items[k], false, false)
    ensures Pairs(items)[2 * k + 1] == Card(items[k] + "-2", items[k], false, false)
    decreases |items|
  {
    var n := |items| - 1;
    if k < n {
      PairsAt(items[..n], k);
    }
  }

  /** Every card of `Pairs(items)`, by position. */
  lemma PairsCard(items: seq<string>, i: nat)
    requires i < 2 * |items|
    ensures Pairs(items)[i].value == items[i / 2]
    ensures Pairs(items)[i].id == items[i / 2] + (if i % 2 == 0 then "-1" else "-2")
    ensures !Pairs(items)[i].isFlipped && !Pairs(items)[i].isMatched
  {
    var k := i / 2;
    if i % 2 == 0 {
      assert 2 * k == i;
    } else {
      assert 2 * k + 1 == i;
    }
    PairsAt(items, k);
  }

  predicate DistinctItems(items: seq<string>) {
    forall p, q :: 0 <= p < q < |items| ==> items[p] != items[q]
  }

  /** `x-1` and `y-2` never coincide, and `x-c` equals `y-c` only when x is y. */
  lemma SuffixedIds(x: string, y: string, c: string, d: string)
    requires c in {"-1", "-2"} && d in {"-1", "-2"}
    ensures x + c == y + d <==> x == y && c == d
  {
    if x + c == y + d {
      var s := x + c;
      assert s[|s| - 1] == c[1] && s[|s| - 1] == d[1];
      assert |x| == |y|;
      assert x == s[..|x|] == y;
    }
  }

  /** The ids of `Pairs(items)` are pairwise distinct exactly when the items
      are. */
  lemma PairsIdsUniqueIff(items: seq<string>)
    ensures UniqueIds(Pairs(items)) <==> DistinctItems(items)
  {
    var cards := Pairs(items);
    if DistinctItems(items) {
      forall i, j | 0 <= i < j < |cards|
        ensures cards[i].id != cards[j].id
      {
        PairsCard(items, i);
        PairsCard(items, j);
        var ci := if i % 2 == 0 then "-1" else "-2";
        var cj := if j % 2 == 0 then "-1" else "-2";
        SuffixedIds(items[i / 2], items[j / 2], ci, cj);
        if i / 2 == j / 2 {
          assert i % 2 != j % 2;
        }
      }
    }
    if UniqueIds(cards) {
      forall p, q | 0 <= p < q < |items|
        ensures items[p] != items[q]
      {
        PairsAt(items, p);
        PairsAt(items, q);
        assert cards[2 * p].id != cards[2 * q].id;
      }
    }
  }

  /** `createCardPairs(items)`: the shuffled pairs. */
  method CreateCardPairs(items: seq<string>, draws: seq<nat>) returns (r: seq<Card>)
    requires 2 * |items| <= |draws| + 1
    ensures |r| == 2 * |items| && multiset(r) == multiset(Pairs(items))
    ensures forall i :: 0 <= i < |r| ==> !r[i].isFlipped && !r[i].isMatched
    ensures UniqueIds(r) <==> DistinctItems(items)
  {
    var pairs := Pairs(items);
    r := ShuffleArray(pairs, draws);
    forall i | 0 <= i < |r|
      ensures !r[i].isFlipped && !r[i].isMatched
    {
      assert r[i] in multiset(pairs);
      var j :| 0 <= j < |pairs| && pairs[j] == r[i];
      PairsCard(items, j);
    }
    PairsIdsUniqueIff(items);
    ShuffleIdsUniqueIff(pairs, draws);
  }

  /** Shuffling neither creates nor removes a repeated id. */
  lemma ShuffleIdsUniqueIff(cards: seq<Card>, draws: seq<nat>)
    requires |cards| <= |draws| + 1
    ensures UniqueIds(Shuffle(cards, draws)) <==> UniqueIds(cards)
  {
    if UniqueIds(cards) {
      ShuffleKeepsIdsUnique(cards, draws);
    } else {
      var i, j :| 0 <= i < j < |cards| && cards[i].id == cards[j].id;
      PermutationKeepsRepeatedId(cards, Shuffle(cards, draws), i, j);
    }
  }

  /** A repeated id survives any permutation. */
  lemma PermutationKeepsRepeatedId(a: seq<Card>, b: seq<Card>, i: nat, j: nat)
    requires multiset(a) == multiset(b)
    requires i < j < |a| && a[i].id == a[j].id
    ensures !UniqueIds(b)
  {
    assert a[i] in multiset(b);
    var p :| 0 <= p < |b| && b[p] == a[i];
    if a[i] == a[j] {
      assert multiset(a)[a[i]] >= 2 by {
        assert a == a[..j] + [a[j]] + a[j + 1..];
        assert a[i] in multiset(a[..j]);
      }
      TwoOccurrences(b, a[i], p);
      var q :| 0 <= q < |b| && q != p && b[q] == a[i];
      assert b[p].id == b[q].id;
    } else {
      assert a[j] in multiset(b);
      var q :| 0 <= q < |b| && b[q] == a[j];
      assert p != q && b[p].id == b[q].id;
    }
  }

  /** An element occurring at least twice occurs at another position too. */
  lemma TwoOccurrences<T>(s: seq<T>, x: T, p: nat)
    requires p < |s| && s[p] == x && multiset(s)[x] >= 2
    ensures exists q :: 0 <= q < |s| && q != p && s[q] == x
  {
    var rest := s[..p] + s[p + 1..];
    assert s == s[..p] + [s[p]] + s[p + 1..];
    assert x in multiset(rest);
    var k :| 0 <= k < |rest| && rest[k] == x;
    if k < p {
      assert s[k] == x;
    } else {
      assert s[k + 1] == x;
    }
  }
}
