/**
 * A stable sort by an integer key (JavaScript's `Array.prototype.sort` is
 * stable), used for every "order by createdAt" in the core.
 */
module Sorting {

  predicate SortedBy<T>(s: seq<T>, key: T -> int) {
    forall i, j :: 0 <= i < j < |s| ==> key(s[i]) <= key(s[j])
  }

  predicate SortedDescendingBy<T>(s: seq<T>, key: T -> int) {
    forall i, j :: 0 <= i < j < |s| ==> key(s[i]) >= key(s[j])
  }

  /** The elements of `s` whose key is `k`, in their order in `s`. */
  function WithKey<T>(s: seq<T>, key: T -> int, k: int): seq<T> {
    if s == [] then [] else (if key(s[0]) == k then [s[0]] else []) + WithKey(s[1..], key, k)
  }

  /** Puts `x` in front of the first element whose key is not smaller. */
  function InsertBy<T>(x: T, s: seq<T>, key: T -> int): seq<T> {
    if s == [] || key(x) <= key(s[0]) then [x] + s else [s[0]] + InsertBy(x, s[1..], key)
  }

  /** Insertion adds exactly `x`: the result is a permutation of `[x] + s`. */
  lemma {:induction false} InsertByPermutes<T>(x: T, s: seq<T>, key: T -> int)
    ensures multiset(InsertBy(x, s, key)) == multiset(s) + multiset{x}
    ensures |InsertBy(x, s, key)| == |s| + 1
    decreases |s|
  {
    if s != [] && key(x) > key(s[0]) {
      InsertByPermutes(x, s[1..], key);
      assert s == [s[0]] + s[1..];
    }
  }

  /** Inserting into a sorted sequence keeps it sorted; the head is `x` or the old head. */
  lemma {:induction false} InsertBySorted<T>(x: T, s: seq<T>, key: T -> int)
    requires SortedBy(s, key)
    ensures SortedBy(InsertBy(x, s, key), key)
    ensures InsertBy(x, s, key)[0] == x || (s != [] && InsertBy(x, s, key)[0] == s[0])
    decreases |s|
  {
    if s == [] || key(x) <= key(s[0]) {
      var r := [x] + s;
      assert InsertBy(x, s, key) == r;
      forall i, j | 0 <= i < j < |r| ensures key(r[i]) <= key(r[j]) {
        if i > 0 { assert r[i] == s[i - 1] && r[j] == s[j - 1]; } else { assert key(s[0]) <= key(s[j - 1]); }
      }
    } else {
      var rest := InsertBy(x, s[1..], key);
      assert SortedBy(s[1..], key);
      InsertBySorted(x, s[1..], key);
      assert key(s[0]) <= key(rest[0]);
      var r := [s[0]] + rest;
      assert InsertBy(x, s, key) == r;
      forall i, j | 0 <= i < j < |r| ensures key(r[i]) <= key(r[j]) {
        if i > 0 { assert r[i] == rest[i - 1] && r[j] == rest[j - 1]; } else { assert key(rest[0]) <= key(rest[j - 1]); }
      }
    }
  }

  /** Insertion sort: ascending by key, a permutation of the input. */
  function SortBy<T>(s: seq<T>, key: T -> int): (r: seq<T>)
    ensures SortedBy(r, key)
    ensures multiset(r) == multiset(s)
    ensures |r| == |s|
  {
    if s == [] then []
    else
      var sortedTail := SortBy(s[1..], key);
      InsertStep(s, sortedTail, key);
      InsertBy(s[0], sortedTail, key)
  }

  /** One step of the insertion sort: inserting the head into the sorted tail sorts the whole. */
  lemma InsertStep<T>(s: seq<T>, sortedTail: seq<T>, key: T -> int)
    requires s != [] && SortedBy(sortedTail, key) && multiset(sortedTail) == multiset(s[1..])
    ensures SortedBy(InsertBy(s[0], sortedTail, key), key)
    ensures multiset(InsertBy(s[0], sortedTail, key)) == multiset(s)
    ensures |InsertBy(s[0], sortedTail, key)| == |s|
  {
    InsertBySorted(s[0], sortedTail, key);
    InsertByPermutes(s[0], sortedTail, key);
    assert s == [s[0]] + s[1..];
    assert |sortedTail| == |multiset(s[1..])|;
  }

  lemma {:induction false} InsertByKeepsOthers<T>(x: T, s: seq<T>, key: T -> int, k: int)
    ensures WithKey(InsertBy(x, s, key), key, k) == (if key(x) == k then [x] else []) + WithKey(s, key, k)
    decreases |s|
  {
    if s == [] || key(x) <= key(s[0]) {
      assert ([x] + s)[1..] == s;
    } else {
      var rest := InsertBy(x, s[1..], key);
      assert ([s[0]] + rest)[1..] == rest;
      InsertByKeepsOthers(x, s[1..], key, k);
      var head := if key(s[0]) == k then [s[0]] else [];
      var inserted := if key(x) == k then [x] else [];
      assert head == [] || inserted == [];
      calc {
        WithKey(InsertBy(x, s, key), key, k);
        head + WithKey(rest, key, k);
        head + (inserted + WithKey(s[1..], key, k));
        inserted + (head + WithKey(s[1..], key, k));
        inserted + WithKey(s, key, k);
      }
    }
  }

  /** Stability: for each key, the elements with that key keep their input order. */
  lemma {:induction false} SortByIsStable<T>(s: seq<T>, key: T -> int, k: int)
    ensures WithKey(SortBy(s, key), key, k) == WithKey(s, key, k)
    decreases |s|
  {
    if s != [] {
      SortByIsStable(s[1..], key, k);
      InsertByKeepsOthers(s[0], SortBy(s[1..], key), key, k);
    }
  }

  function Reverse<T>(s: seq<T>): (r: seq<T>)
    ensures |r| == |s|
    ensures forall i :: 0 <= i < |s| ==> r[i] == s[|s| - 1 - i]
  {
    if s == [] then [] else Reverse(s[1..]) + [s[0]]
  }

  lemma ReverseSameElements<T>(s: seq<T>)
    ensures multiset(Reverse(s)) == multiset(s)
  {
    if s != [] {
      ReverseSameElements(s[1..]);
      assert s == [s[0]] + s[1..];
    }
  }

  /** Reversing an ascending sequence gives a descending one. */
  lemma ReverseOfSorted<T>(s: seq<T>, key: T -> int)
    requires SortedBy(s, key)
    ensures SortedDescendingBy(Reverse(s), key)
  {
  }
}
