/** Sequence operations shared by the card service and the stores: the
    JavaScript `Array.prototype.filter`, counting by a predicate, and the
    facts about them that the state-machine and ranking proofs rely on. */
module Seqs {

  /** `a` can be obtained from `b` by deleting elements (order is kept). */
  ghost predicate IsSubsequence<T>(a: seq<T>, b: seq<T>)
    decreases |b|
  {
    || |a| == 0
    || (&& |b| > 0
        && ((a[0] == b[0] && IsSubsequence(a[1..], b[1..])) || IsSubsequence(a, b[1..])))
  }

  /** `Array.prototype.filter`: the elements satisfying `f`, in order. */
  function Filter<T>(f: T -> bool, s: seq<T>): (r: seq<T>)
    ensures |r| <= |s|
    ensures forall i :: 0 <= i < |r| ==> f(r[i])
  {
    if |s| == 0 then []
    else
      var rest := Filter(f, s[1..]);
      if f(s[0]) then [s[0]] + rest else rest
  }

  /** The filtered sequence holds every element satisfying `f` exactly as
      often as `s` does, and nothing else. */
  lemma {:induction false} FilterMultiset<T>(f: T -> bool, s: seq<T>)
    ensures forall x :: multiset(Filter(f, s))[x] == if f(x) then multiset(s)[x] else 0
    decreases |s|
  {
    if |s| > 0 {
      FilterMultiset(f, s[1..]);
      assert s == [s[0]] + s[1..];
    }
  }

  /** The filtered sequence keeps the order of `s`. */
  lemma {:induction false} FilterSubsequence<T>(f: T -> bool, s: seq<T>)
    ensures IsSubsequence(Filter(f, s), s)
    decreases |s|
  {
    if |s| > 0 {
      FilterSubsequence(f, s[1..]);
      var r := Filter(f, s);
      if f(s[0]) {
        assert r[1..] == Filter(f, s[1..]);
      }
    }
  }

  /** Number of elements satisfying `f` (the length of the filtered array). */
  function Count<T>(f: T -> bool, s: seq<T>): (n: nat)
    ensures n <= |s|
  {
    |Filter(f, s)|
  }

  lemma {:induction false} FilterConcat<T>(f: T -> bool, a: seq<T>, b: seq<T>)
    ensures Filter(f, a + b) == Filter(f, a) + Filter(f, b)
    decreases |a|
  {
    if |a| == 0 {
      assert a + b == b;
    } else {
      assert (a + b)[1..] == a[1..] + b;
      FilterConcat(f, a[1..], b);
    }
  }

  lemma CountConcat<T>(f: T -> bool, a: seq<T>, b: seq<T>)
    ensures Count(f, a + b) == Count(f, a) + Count(f, b)
  {
    FilterConcat(f, a, b);
  }

  /** Replacing one element changes the count only by what that element contributes. */
  lemma CountUpdate<T>(f: T -> bool, s: seq<T>, i: nat, x: T)
    requires i < |s|
    ensures Count(f, s[i := x]) + (if f(s[i]) then 1 else 0)
            == Count(f, s) + (if f(x) then 1 else 0)
  {
    assert s == s[..i] + [s[i]] + s[i + 1..];
    assert s[i := x] == s[..i] + [x] + s[i + 1..];
    CountConcat(f, s[..i] + [s[i]], s[i + 1..]);
    CountConcat(f, s[..i], [s[i]]);
    CountConcat(f, s[..i] + [x], s[i + 1..]);
    CountConcat(f, s[..i], [x]);
  }

  /** The count reaches the length exactly when every element satisfies `f`. */
  lemma {:induction false} CountAll<T>(f: T -> bool, s: seq<T>)
    ensures Count(f, s) == |s| <==> forall i :: 0 <= i < |s| ==> f(s[i])
    decreases |s|
  {
    if |s| > 0 {
      CountAll(f, s[1..]);
      assert forall i :: 1 <= i < |s| ==> s[i] == s[1..][i - 1];
    }
  }

  lemma {:induction false} SubsequenceTransitive<T>(a: seq<T>, b: seq<T>, c: seq<T>)
    requires IsSubsequence(a, b) && IsSubsequence(b, c)
    ensures IsSubsequence(a, c)
    decreases |c|
  {
    if |a| > 0 {
      if a[0] == b[0] && IsSubsequence(a[1..], b[1..]) {
        if b[0] == c[0] && IsSubsequence(b[1..], c[1..]) {
          SubsequenceTransitive(a[1..], b[1..], c[1..]);
        } else {
          SubsequenceTransitive(a, b, c[1..]);
        }
      } else {
        if b[0] == c[0] && IsSubsequence(b[1..], c[1..]) {
          SubsequenceTransitive(a, b[1..], c[1..]);
        } else {
          SubsequenceTransitive(a, b, c[1..]);
        }
      }
    }
  }

  /** Filtering by `f` and then by `g` keeps exactly the elements satisfying both. */
  lemma {:induction false} FilterTwice<T>(f: T -> bool, g: T -> bool, h: T -> bool, s: seq<T>)
    requires forall x :: h(x) == (f(x) && g(x))
    ensures Filter(g, Filter(f, s)) == Filter(h, s)
    decreases |s|
  {
    if |s| > 0 {
      FilterTwice(f, g, h, s[1..]);
    }
  }

  /** Filtering with a predicate every element satisfies changes nothing. */
  lemma {:induction false} FilterKeepsAll<T>(f: T -> bool, s: seq<T>)
    requires forall i :: 0 <= i < |s| ==> f(s[i])
    ensures Filter(f, s) == s
    decreases |s|
  {
    if |s| > 0 {
      FilterKeepsAll(f, s[1..]);
    }
  }

  /** Filtering with a predicate no element satisfies leaves nothing. */
  lemma {:induction false} FilterDropsAll<T>(f: T -> bool, s: seq<T>)
    requires forall i :: 0 <= i < |s| ==> !f(s[i])
    ensures Filter(f, s) == []
    decreases |s|
  {
    if |s| > 0 {
      FilterDropsAll(f, s[1..]);
    }
  }

  /** Sequences that agree on `f` position by position have the same count. */
  lemma {:induction false} CountPointwise<T, U>(f: T -> bool, g: U -> bool, a: seq<T>, b: seq<U>)
    requires |a| == |b|
    requires forall k :: 0 <= k < |a| ==> f(a[k]) == g(b[k])
    ensures Count(f, a) == Count(g, b)
    decreases |a|
  {
    if |a| > 0 {
      assert forall k :: 0 <= k < |a| - 1 ==> a[1..][k] == a[k + 1] && b[1..][k] == b[k + 1];
      CountPointwise(f, g, a[1..], b[1..]);
    }
  }

  /** Every element of a rearrangement of a filtered sequence satisfies
      the filter. */
  lemma PermutedFilterSatisfies<T>(f: T -> bool, s: seq<T>, r: seq<T>)
    requires multiset(r) == multiset(Filter(f, s))
    ensures forall i :: 0 <= i < |r| ==> f(r[i])
  {
    var kept := Filter(f, s);
    forall i | 0 <= i < |r|
      ensures f(r[i])
    {
      assert r[i] in multiset(kept);
      var k :| 0 <= k < |kept| && kept[k] == r[i];
    }
  }

  /** A non-empty sequence is its front followed by its last element. */
  lemma SplitLast<T>(s: seq<T>)
    requires |s| > 0
    ensures s == s[..|s| - 1] + [s[|s| - 1]]
  {
  }

  /** A non-empty sequence is its first element followed by its tail. */
  lemma SplitFirst<T>(s: seq<T>)
    requires |s| > 0
    ensures s == [s[0]] + s[1..]
  {
  }

  /** Exchange of two positions (the destructuring swap of Fisher-Yates). */
  function Swap<T>(s: seq<T>, i: nat, j: nat): (r: seq<T>)
    requires i < |s| && j < |s|
    ensures |r| == |s| && r[i] == s[j] && r[j] == s[i]
    ensures forall k :: 0 <= k < |s| && k != i && k != j ==> r[k] == s[k]
  {
    s[i := s[j]][j := s[i]]
  }

  /** A swap rearranges the elements and loses none. */
  lemma SwapMultiset<T>(s: seq<T>, i: nat, j: nat)
    requires i < |s| && j < |s|
    ensures multiset(Swap(s, i, j)) == multiset(s)
  {
  }
}
