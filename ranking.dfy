/**
 * Stable sorting of arena indices by an integer key: the sortBy of the source's
 * sortMostInterestingFirst. The key is a parameter so that the ranking rule can
 * be swapped without touching the proofs.
 */
module Ranking {

  predicate SortedBy(s: seq<nat>, key: nat -> int) {
    forall i, j :: 0 <= i < j < |s| ==> key(s[i]) <= key(s[j])
  }

  predicate NoDup(s: seq<nat>) {
    forall i, j :: 0 <= i < j < |s| ==> s[i] != s[j]
  }

  /** The elements of `s` whose key is `k`, in their order in `s`. */
  function WithKey(s: seq<nat>, key: nat -> int, k: int): seq<nat> {
    if |s| == 0 then [] else (if key(s[0]) == k then [s[0]] else []) + WithKey(s[1..], key, k)
  }

  /** Puts `x` in front of the first element whose key is not smaller. */
  function Insert(x: nat, s: seq<nat>, key: nat -> int): (r: seq<nat>)
    ensures |r| == |s| + 1
    ensures multiset(r) == multiset(s) + multiset{x}
  {
    if |s| == 0 || key(x) <= key(s[0]) then [x] + s
    else
      assert s == [s[0]] + s[1..];
      [s[0]] + Insert(x, s[1..], key)
  }

  lemma {:induction false} InsertSorted(x: nat, s: seq<nat>, key: nat -> int)
    requires SortedBy(s, key)
    ensures SortedBy(Insert(x, s, key), key)
  {
    if |s| > 0 && key(x) > key(s[0]) {
      var rest := Insert(x, s[1..], key);
      InsertSorted(x, s[1..], key);
      forall j | 0 <= j < |rest| ensures key(s[0]) <= key(rest[j]) {
        assert rest[j] in multiset(rest);
        if rest[j] != x {
          assert rest[j] in multiset(s[1..]);
          var m :| 0 <= m < |s[1..]| && s[1..][m] == rest[j];
          assert s[1..][m] == s[m + 1];
        }
      }
    }
  }

  lemma {:induction false} InsertNoDup(x: nat, s: seq<nat>, key: nat -> int)
    requires NoDup(s) && x !in s
    ensures NoDup(Insert(x, s, key))
  {
    if |s| > 0 && key(x) > key(s[0]) {
      var rest := Insert(x, s[1..], key);
      assert s == [s[0]] + s[1..];
      InsertNoDup(x, s[1..], key);
      assert s[0] !in multiset(rest);
    }
  }

  /** Insertion sort; it keeps elements of equal key in their input order. */
  function SortBy(s: seq<nat>, key: nat -> int): (r: seq<nat>)
    ensures |r| == |s|
    ensures multiset(r) == multiset(s)
  {
    if |s| == 0 then []
    else
      assert s == [s[0]] + s[1..];
      Insert(s[0], SortBy(s[1..], key), key)
  }

  /** The sort yields ascending keys. */
  lemma {:induction false} SortBySorted(s: seq<nat>, key: nat -> int)
    ensures SortedBy(SortBy(s, key), key)
  {
    if |s| > 0 {
      SortBySorted(s[1..], key);
      InsertSorted(s[0], SortBy(s[1..], key), key);
    }
  }

  /** The sort never duplicates an element. */
  lemma {:induction false} SortByNoDup(s: seq<nat>, key: nat -> int)
    requires NoDup(s)
    ensures NoDup(SortBy(s, key))
  {
    if |s| > 0 {
      assert s == [s[0]] + s[1..];
      SortByNoDup(s[1..], key);
      assert s[0] !in multiset(SortBy(s[1..], key));
      InsertNoDup(s[0], SortBy(s[1..], key), key);
    }
  }

  lemma WithKeyCons(x: nat, s: seq<nat>, key: nat -> int, k: int)
    ensures WithKey([x] + s, key, k) == (if key(x) == k then [x] else []) + WithKey(s, key, k)
  {
    assert ([x] + s)[1..] == s;
  }

  lemma SwapEmpty(a: seq<nat>, b: seq<nat>, t: seq<nat>)
    requires a == [] || b == []
    ensures a + (b + t) == b + (a + t)
  {
    if a == [] {
      assert a + (b + t) == b + t == b + (a + t);
    } else {
      assert a + (b + t) == a + t == b + (a + t);
    }
  }

  /** Inserting before the elements of equal key keeps each key's elements in order. */
  lemma {:induction false} InsertWithKey(x: nat, s: seq<nat>, key: nat -> int, k: int)
    requires SortedBy(s, key)
    ensures WithKey(Insert(x, s, key), key, k) == (if key(x) == k then [x] else []) + WithKey(s, key, k)
  {
    if |s| == 0 || key(x) <= key(s[0]) {
      WithKeyCons(x, s, key, k);
    } else {
      var rest := Insert(x, s[1..], key);
      var head := if key(s[0]) == k then [s[0]] else [];
      var fx := if key(x) == k then [x] else [];
      var tail := WithKey(s[1..], key, k);
      assert SortedBy(s[1..], key) by {
        forall i, j | 0 <= i < j < |s[1..]| ensures key(s[1..][i]) <= key(s[1..][j]) {
          assert s[1..][i] == s[i + 1] && s[1..][j] == s[j + 1];
        }
      }
      InsertWithKey(x, s[1..], key, k);
      WithKeyCons(s[0], rest, key, k);
      SwapEmpty(head, fx, tail);
    }
  }

  /** Stability: for every key, the sort keeps the input order of the elements having it. */
  lemma {:induction false} SortByStable(s: seq<nat>, key: nat -> int, k: int)
    ensures WithKey(SortBy(s, key), key, k) == WithKey(s, key, k)
  {
    if |s| > 0 {
      SortByStable(s[1..], key, k);
      SortBySorted(s[1..], key);
      InsertWithKey(s[0], SortBy(s[1..], key), key, k);
    }
  }

  /** A list already in ascending key order is its own sort. */
  lemma {:induction false} SortBySortedIdentity(s: seq<nat>, key: nat -> int)
    requires SortedBy(s, key)
    ensures SortBy(s, key) == s
  {
    if |s| > 0 {
      SortBySortedIdentity(s[1..], key);
      assert s == [s[0]] + s[1..];
    }
  }

  /** Sorting twice is sorting once. */
  lemma SortByIdempotent(s: seq<nat>, key: nat -> int)
    ensures SortBy(SortBy(s, key), key) == SortBy(s, key)
  {
    SortBySorted(s, key);
    SortBySortedIdentity(SortBy(s, key), key);
  }

  /** When every element has the same key the sort changes nothing. */
  lemma {:induction false} SortBySameKey(s: seq<nat>, key: nat -> int, c: int)
    requires forall i :: 0 <= i < |s| ==> key(s[i]) == c
    ensures SortBy(s, key) == s
  {
    if |s| > 0 {
      SortBySameKey(s[1..], key, c);
      assert s == [s[0]] + s[1..];
    }
  }

  lemma NoDupSnoc(s: seq<nat>, x: nat)
    requires NoDup(s) && x !in s
    ensures NoDup(s + [x])
  {
    var r := s + [x];
    forall i, j | 0 <= i < j < |r| ensures r[i] != r[j] {
      if j == |s| { assert r[i] == s[i]; }
    }
  }

  /** Position of the first occurrence of `x`. */
  function FirstIndex(s: seq<nat>, x: nat): (k: nat)
    requires x in s
    ensures k < |s| && s[k] == x && x !in s[..k]
  {
    if s[0] == x then 0
    else
      assert x in s[1..];
      var k := FirstIndex(s[1..], x);
      assert s[..k + 1] == [s[0]] + s[1..][..k];
      k + 1
  }

  /** The list without the first occurrence of `x` (MutableList.remove); unchanged when `x` is absent. */
  function RemoveFirst(s: seq<nat>, x: nat): (r: seq<nat>)
    ensures |r| == if x in s then |s| - 1 else |s|
    ensures multiset(r) == multiset(s) - multiset{x}
  {
    if x in s then
      var k := FirstIndex(s, x);
      assert s == s[..k] + [x] + s[k + 1..];
      s[..k] + s[k + 1..]
    else s
  }

  /** Dropping one position keeps a duplicate-free list duplicate-free. */
  lemma NoDupDropAt(s: seq<nat>, k: nat)
    requires NoDup(s) && k < |s|
    ensures NoDup(s[..k] + s[k + 1..])
  {
    var r := s[..k] + s[k + 1..];
    forall i, j | 0 <= i < j < |r| ensures r[i] != r[j] {
      var i' := if i < k then i else i + 1;
      var j' := if j < k then j else j + 1;
      assert r[i] == s[i'] && r[j] == s[j'] && i' < j';
    }
  }

  /** Removal keeps a duplicate-free list duplicate-free. */
  lemma RemoveFirstNoDup(s: seq<nat>, x: nat)
    requires NoDup(s)
    ensures NoDup(RemoveFirst(s, x))
  {
    if x in s {
      NoDupDropAt(s, FirstIndex(s, x));
    }
  }

  /** In a duplicate-free list, dropping a position takes out exactly the element there. */
  lemma NoDupDropAtMembers(s: seq<nat>, k: nat, y: nat)
    requires NoDup(s) && k < |s|
    ensures y in s[..k] + s[k + 1..] <==> y in s && y != s[k]
  {
    var r := s[..k] + s[k + 1..];
    if y in r {
      var i :| 0 <= i < |r| && r[i] == y;
      var i' := if i < k then i else i + 1;
      assert s[i'] == y && i' != k;
    }
    if y in s && y != s[k] {
      var i :| 0 <= i < |s| && s[i] == y;
      assert r[if i < k then i else i - 1] == y;
    }
  }

  /** In a duplicate-free list, removal takes out exactly `x`. */
  lemma RemoveFirstMembers(s: seq<nat>, x: nat, y: nat)
    requires NoDup(s)
    ensures y in RemoveFirst(s, x) <==> y in s && y != x
  {
    if x in s {
      NoDupDropAtMembers(s, FirstIndex(s, x), y);
    }
  }
}
