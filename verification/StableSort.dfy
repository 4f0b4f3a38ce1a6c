/** Rust's `sort_by_key`: a stable sort on an integer key. */
module StableSort {
  function Identity(x: int): int {
    x
  }

  function Insert<T>(x: T, s: seq<T>, key: T -> int): seq<T> {
    if s == [] || key(x) < key(s[0]) then [x] + s else [s[0]] + Insert(x, s[1..], key)
  }

  /** Elements are inserted in their original order, each behind its equals. */
  function Sort<T>(s: seq<T>, key: T -> int): seq<T> {
    if s == [] then [] else Insert(s[|s| - 1], Sort(s[..|s| - 1], key), key)
  }

  ghost predicate Sorted<T>(s: seq<T>, key: T -> int) {
    forall i, j :: 0 <= i < j < |s| ==> key(s[i]) <= key(s[j])
  }

  /** The elements with key k, in the order they have in s. */
  function WithKey<T>(s: seq<T>, key: T -> int, k: int): seq<T> {
    if s == [] then [] else
      (if key(s[0]) == k then [s[0]] else []) + WithKey(s[1..], key, k)
  }

  lemma {:induction false} WithKeyAppend<T>(s: seq<T>, x: T, key: T -> int, k: int)
    ensures WithKey(s + [x], key, k) == WithKey(s, key, k) + (if key(x) == k then [x] else [])
  {
    if s == [] {
      assert [] + [x] == [x];
      assert [x][1..] == [];
    } else {
      assert (s + [x])[1..] == s[1..] + [x];
      WithKeyAppend(s[1..], x, key, k);
    }
  }

  lemma WithKeyNone<T>(s: seq<T>, key: T -> int, k: int)
    requires forall i :: 0 <= i < |s| ==> key(s[i]) != k
    ensures WithKey(s, key, k) == []
  {
  }

  lemma {:induction false} InsertContents<T>(x: T, s: seq<T>, key: T -> int)
    ensures multiset(Insert(x, s, key)) == multiset(s) + multiset{x}
    ensures |Insert(x, s, key)| == |s| + 1
  {
    if s != [] && key(x) >= key(s[0]) {
      InsertContents(x, s[1..], key);
      assert s == [s[0]] + s[1..];
    }
  }

  lemma {:induction false} InsertSorted<T>(x: T, s: seq<T>, key: T -> int)
    requires Sorted(s, key)
    ensures Sorted(Insert(x, s, key), key)
  {
    if s != [] && key(x) >= key(s[0]) {
      var t := Insert(x, s[1..], key);
      InsertSorted(x, s[1..], key);
      InsertContents(x, s[1..], key);
      forall i | 0 <= i < |t| ensures key(s[0]) <= key(t[i]) {
        assert t[i] in multiset(t);
        assert t[i] == x || t[i] in s[1..];
      }
    }
  }

  lemma {:induction false} InsertWithKey<T>(x: T, s: seq<T>, key: T -> int, k: int)
    requires Sorted(s, key)
    ensures WithKey(Insert(x, s, key), key, k) == WithKey(s, key, k) + (if key(x) == k then [x] else [])
  {
    var r := Insert(x, s, key);
    if s == [] || key(x) < key(s[0]) {
      assert r == [x] + s && r[1..] == s;
      if key(x) == k {
        WithKeyNone(s, key, k);
      }
    } else {
      assert r[1..] == Insert(x, s[1..], key);
      InsertWithKey(x, s[1..], key, k);
    }
  }

  /** Sort orders its input, loses and invents nothing, and keeps equals in order. */
  lemma {:induction false} SortFacts<T>(s: seq<T>, key: T -> int)
    ensures Sorted(Sort(s, key), key)
    ensures multiset(Sort(s, key)) == multiset(s)
    ensures |Sort(s, key)| == |s|
    ensures forall k :: WithKey(Sort(s, key), key, k) == WithKey(s, key, k)
  {
    if s != [] {
      var front, x := s[..|s| - 1], s[|s| - 1];
      assert s == front + [x];
      SortFacts(front, key);
      InsertContents(x, Sort(front, key), key);
      InsertSorted(x, Sort(front, key), key);
      forall k ensures WithKey(s, key, k) == WithKey(Sort(s, key), key, k) {
        WithKeyAppend(front, x, key, k);
        InsertWithKey(x, Sort(front, key), key, k);
      }
    }
  }

  lemma SortMembers<T>(s: seq<T>, key: T -> int)
    ensures forall x :: x in Sort(s, key) <==> x in s
  {
    SortFacts(s, key);
    forall x ensures x in Sort(s, key) <==> x in s {
      assert x in multiset(Sort(s, key)) <==> x in multiset(s);
    }
  }

  lemma {:induction false} InsertAtEnd<T>(x: T, s: seq<T>, key: T -> int)
    requires forall i :: 0 <= i < |s| ==> key(s[i]) <= key(x)
    ensures Insert(x, s, key) == s + [x]
  {
    if s != [] {
      InsertAtEnd(x, s[1..], key);
    }
  }

  /** Exactly the ordered lists are left as they are. */
  lemma {:induction false} SortUnchangedIff<T(!new)>(s: seq<T>, key: T -> int)
    ensures Sort(s, key) == s <==> Sorted(s, key)
  {
    SortFacts(s, key);
    if s != [] && Sorted(s, key) {
      var front := s[..|s| - 1];
      SortUnchangedIff(front, key);
      InsertAtEnd(s[|s| - 1], front, key);
    }
  }

  lemma {:induction false} InsertLast<T>(x: T, s: seq<T>, key: T -> int)
    requires Sorted(s, key)
    ensures |Insert(x, s, key)| == |s| + 1
    ensures Insert(x, s, key)[|s|] == if s == [] || key(x) >= key(s[|s| - 1]) then x else s[|s| - 1]
  {
    if s != [] && key(x) >= key(s[0]) {
      InsertLast(x, s[1..], key);
    }
  }

  lemma SortSorted<T>(s: seq<T>, key: T -> int)
    ensures Sorted(Sort(s, key), key) && |Sort(s, key)| == |s|
  {
    SortFacts(s, key);
  }

  /** What comes first: the earliest element with the smallest key. */
  lemma {:induction false} SortFirst<T>(s: seq<T>, key: T -> int) returns (i: nat)
    requires s != []
    ensures |Sort(s, key)| == |s| && i < |s| && Sort(s, key)[0] == s[i]
    ensures forall j :: 0 <= j < |s| ==> key(s[j]) >= key(s[i])
    ensures forall j :: 0 <= j < i ==> key(s[j]) > key(s[i])
  {
    hide Sorted;
    SortSorted(s, key);
    var front := s[..|s| - 1];
    i := |s| - 1;
    if front != [] {
      var k := SortFirst(front, key);
      if key(s[|s| - 1]) >= key(s[k]) {
        i := k;
      }
    }
  }

  /** What comes last: the latest element with the largest key. */
  lemma {:induction false} SortLast<T>(s: seq<T>, key: T -> int) returns (i: nat)
    requires s != []
    ensures |Sort(s, key)| == |s| && i < |s| && Sort(s, key)[|s| - 1] == s[i]
    ensures forall j :: 0 <= j < |s| ==> key(s[j]) <= key(s[i])
    ensures forall j :: i < j < |s| ==> key(s[j]) < key(s[i])
  {
    hide Sorted, Insert;
    var front := s[..|s| - 1];
    SortSorted(front, key);
    InsertLast(s[|s| - 1], Sort(front, key), key);
    i := |s| - 1;
    if front != [] {
      var k := SortLast(front, key);
      if key(s[|s| - 1]) < key(s[k]) {
        i := k;
      }
    }
  }
}
