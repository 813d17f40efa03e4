/** The stable sort behind `Array.prototype.sort` with a comparator that
    orders by a numeric key (`(a, b) => key(a) - key(b)`): ECMAScript
    requires the sort to be stable, so the result is the input ordered by
    key, with elements of equal key kept in their input order. It is
    modelled as an insertion sort and specified by those three facts. */
module Sorting {
  import opened Seqs

  /** Keys never decrease along `s`. */
  predicate SortedBy<T>(s: seq<T>, key: T -> int) {
    forall i, j :: 0 <= i < j < |s| ==> key(s[i]) <= key(s[j])
  }

  /** The elements whose key is `k`. */
  function HasKey<T>(key: T -> int, k: int): T -> bool {
    (x: T) => key(x) == k
  }

  /** Inserts `x` before the first element with a larger key. */
  function Insert<T>(x: T, s: seq<T>, key: T -> int): (r: seq<T>)
    ensures |r| == |s| + 1
    ensures multiset(r) == multiset(s) + multiset{x}
    ensures r[0] == x || (|s| > 0 && r[0] == s[0])
    ensures SortedBy(s, key) ==> SortedBy(r, key)
  {
    if |s| == 0 then [x]
    else if key(x) < key(s[0]) then [x] + s
    else
      var rest := Insert(x, s[1..], key);
      assert s == [s[0]] + s[1..];
      [s[0]] + rest
  }

  /** The sorted copy of `s`: a permutation of `s` in key order. */
  function SortBy<T>(s: seq<T>, key: T -> int): (r: seq<T>)
    ensures |r| == |s|
    ensures multiset(r) == multiset(s)
    ensures SortedBy(r, key)
    decreases |s|
  {
    if |s| == 0 then []
    else
      var n := |s| - 1;
      assert s == s[..n] + [s[n]];
      Insert(s[n], SortBy(s[..n], key), key)
  }

  /** No element of a sorted sequence headed by a larger key has key `k`. */
  lemma SortedAboveHasNoKey<T>(s: seq<T>, key: T -> int, k: int)
    requires SortedBy(s, key) && |s| > 0 && k < key(s[0])
    ensures Filter(HasKey(key, k), s) == []
  {
    FilterDropsAll(HasKey(key, k), s);
  }

  /** Inserting into a sorted sequence appends `x` to the elements of its
      own key and leaves every other key's elements as they were. */
  lemma {:induction false} InsertFilter<T>(x: T, s: seq<T>, key: T -> int, k: int)
    requires SortedBy(s, key)
    ensures Filter(HasKey(key, k), Insert(x, s, key))
            == Filter(HasKey(key, k), s) + (if key(x) == k then [x] else [])
    decreases |s|
  {
    var f := HasKey(key, k);
    if |s| == 0 {
    } else if key(x) < key(s[0]) {
      assert ([x] + s)[1..] == s;
      if key(x) == k {
        SortedAboveHasNoKey(s, key, k);
      }
    } else {
      var rest := Insert(x, s[1..], key);
      assert ([s[0]] + rest)[1..] == rest;
      InsertFilter(x, s[1..], key, k);
    }
  }

  /** Stability: for every key, the elements with that key appear in the
      sorted result in the same order as in the input. */
  lemma {:induction false} SortStable<T>(s: seq<T>, key: T -> int, k: int)
    ensures Filter(HasKey(key, k), SortBy(s, key)) == Filter(HasKey(key, k), s)
    decreases |s|
  {
    if |s| > 0 {
      var n := |s| - 1;
      SortStable(s[..n], key, k);
      InsertFilter(s[n], SortBy(s[..n], key), key, k);
      SplitLast(s);
      FilterConcat(HasKey(key, k), s[..n], [s[n]]);
    }
  }

  /** Sorting an already sorted sequence changes nothing. */
  lemma {:induction false} SortSortedIdentity<T>(s: seq<T>, key: T -> int)
    requires SortedBy(s, key)
    ensures SortBy(s, key) == s
    decreases |s|
  {
    if |s| > 0 {
      var n := |s| - 1;
      SortSortedIdentity(s[..n], key);
      InsertLast(s[..n], s[n], key);
      SplitLast(s);
    }
  }

  /** Inserting an element whose key is at least every key of a sorted
      sequence appends it. */
  lemma {:induction false} InsertLast<T>(s: seq<T>, x: T, key: T -> int)
    requires forall i :: 0 <= i < |s| ==> key(s[i]) <= key(x)
    ensures Insert(x, s, key) == s + [x]
    decreases |s|
  {
    if |s| > 0 {
      assert key(s[0]) <= key(x);
      calc {
        Insert(x, s, key);
        [s[0]] + Insert(x, s[1..], key);
        { BoundedTail(s, x, key); InsertLast(s[1..], x, key); }
        [s[0]] + (s[1..] + [x]);
        ([s[0]] + s[1..]) + [x];
        { SplitFirst(s); }
        s + [x];
      }
    }
  }

  lemma BoundedTail<T>(s: seq<T>, x: T, key: T -> int)
    requires |s| > 0 && forall i :: 0 <= i < |s| ==> key(s[i]) <= key(x)
    ensures forall i :: 0 <= i < |s[1..]| ==> key(s[1..][i]) <= key(x)
  {
  }

  /** A subsequence of a sorted sequence is sorted; in particular every
      filtered sorted sequence is. */
  lemma {:induction false} FilterKeepsSorted<T>(f: T -> bool, s: seq<T>, key: T -> int)
    requires SortedBy(s, key)
    ensures SortedBy(Filter(f, s), key)
    decreases |s|
  {
    if |s| > 0 {
      FilterKeepsSorted(f, s[1..], key);
      var rest := Filter(f, s[1..]);
      if f(s[0]) {
        forall j | 0 <= j < |rest|
          ensures key(s[0]) <= key(rest[j])
        {
          FilterMember(f, s[1..], j);
        }
      }
    }
  }

  /** Every element of a filtered sequence comes from the input. */
  lemma {:induction false} FilterMember<T>(f: T -> bool, s: seq<T>, j: nat)
    requires j < |Filter(f, s)|
    ensures exists i :: 0 <= i < |s| && s[i] == Filter(f, s)[j]
    decreases |s|
  {
    if f(s[0]) && j == 0 {
      assert s[0] == Filter(f, s)[0];
    } else if f(s[0]) {
      FilterMember(f, s[1..], j - 1);
      var i :| 0 <= i < |s[1..]| && s[1..][i] == Filter(f, s[1..])[j - 1];
      assert s[i + 1] == Filter(f, s)[j];
    } else {
      FilterMember(f, s[1..], j);
      var i :| 0 <= i < |s[1..]| && s[1..][i] == Filter(f, s[1..])[j];
      assert s[i + 1] == Filter(f, s)[j];
    }
  }
}
