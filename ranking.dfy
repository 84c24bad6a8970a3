/**
 * Stable sorting in descending order of a real-valued key, as Python's
 * `list.sort(key=..., reverse=True)` does: the result is non-increasing in
 * the key and elements with equal keys keep their relative order.
 */
module Ranking {

  /** Non-increasing in `key` from front to back. */
  predicate NonIncreasing<T>(s: seq<T>, key: T -> real)
  {
    forall i, j :: 0 <= i < j < |s| ==> key(s[i]) >= key(s[j])
  }

  /** The subsequence of the elements whose key is `c`, in their order in `s`. */
  function Ties<T>(s: seq<T>, key: T -> real, c: real): seq<T>
  {
    if s == [] then []
    else (if key(s[0]) == c then [s[0]] else []) + Ties(s[1..], key, c)
  }

  /** Stability: every class of equal keys appears in the same relative order in both sequences. */
  ghost predicate SameTies<T>(s: seq<T>, t: seq<T>, key: T -> real)
  {
    forall c :: Ties(s, key, c) == Ties(t, key, c)
  }

  /** Places `x` in front of the first element whose key is not greater than its own. */
  function InsertFront<T>(x: T, s: seq<T>, key: T -> real): seq<T>
  {
    if s == [] || key(s[0]) <= key(x) then [x] + s
    else [s[0]] + InsertFront(x, s[1..], key)
  }

  /** Stable descending insertion sort: insert the head into the sorted rest. */
  function SortDesc<T>(s: seq<T>, key: T -> real): seq<T>
  {
    if s == [] then [] else InsertFront(s[0], SortDesc(s[1..], key), key)
  }

  lemma {:induction false} InsertFrontMultiset<T>(x: T, s: seq<T>, key: T -> real)
    ensures multiset(InsertFront(x, s, key)) == multiset(s) + multiset{x}
    decreases |s|
  {
    if s != [] && key(s[0]) > key(x) {
      InsertFrontMultiset(x, s[1..], key);
      assert s == [s[0]] + s[1..];
    }
  }

  lemma {:induction false} InsertFrontSorted<T>(x: T, s: seq<T>, key: T -> real)
    requires NonIncreasing(s, key)
    ensures NonIncreasing(InsertFront(x, s, key), key)
    decreases |s|
  {
    var r := InsertFront(x, s, key);
    if s != [] && key(s[0]) > key(x) {
      var rest := InsertFront(x, s[1..], key);
      InsertFrontSorted(x, s[1..], key);
      InsertFrontMultiset(x, s[1..], key);
      assert r == [s[0]] + rest;
      forall j | 0 < j < |r| ensures key(r[0]) >= key(r[j]) {
        assert r[j] == rest[j - 1];
        assert r[j] in multiset(s[1..]) + multiset{x};
        if r[j] != x {
          assert r[j] in s[1..];
          var k :| 0 <= k < |s[1..]| && s[1..][k] == r[j];
          assert s[k + 1] == r[j];
        }
      }
      forall i, j | 0 < i < j < |r| ensures key(r[i]) >= key(r[j]) {
        assert r[i] == rest[i - 1] && r[j] == rest[j - 1];
      }
    }
  }

  lemma {:induction false} InsertFrontTies<T>(x: T, s: seq<T>, key: T -> real, c: real)
    requires NonIncreasing(s, key)
    ensures Ties(InsertFront(x, s, key), key, c) == (if key(x) == c then [x] else []) + Ties(s, key, c)
    decreases |s|
  {
    var r := InsertFront(x, s, key);
    if s == [] || key(s[0]) <= key(x) {
      assert r[1..] == s;
    } else {
      var rest := InsertFront(x, s[1..], key);
      InsertFrontTies(x, s[1..], key, c);
      assert r[1..] == rest;
    }
  }

  /** The sort is non-increasing, a permutation of its input and stable. */
  lemma {:induction false} SortDescProperties<T>(s: seq<T>, key: T -> real)
    ensures NonIncreasing(SortDesc(s, key), key)
    ensures multiset(SortDesc(s, key)) == multiset(s)
    ensures SameTies(SortDesc(s, key), s, key)
  {
    if s != [] {
      SortDescProperties(s[1..], key);
      var t := SortDesc(s[1..], key);
      InsertFrontSorted(s[0], t, key);
      InsertFrontMultiset(s[0], t, key);
      assert s == [s[0]] + s[1..];
      forall c ensures Ties(SortDesc(s, key), key, c) == Ties(s, key, c) {
        InsertFrontTies(s[0], t, key, c);
      }
    }
  }

  /**
   * A non-increasing sequence with the same tie classes as `s` is the one
   * `SortDesc` gives: whatever stable algorithm sorts, the order is the same.
   */
  lemma {:induction false} StableSortUnique<T>(r: seq<T>, t: seq<T>, key: T -> real)
    requires NonIncreasing(r, key) && NonIncreasing(t, key)
    requires SameTies(r, t, key)
    ensures r == t
    decreases |r| + |t|
  {
    TiesOfHead(r, key);
    TiesOfHead(t, key);
    if r == [] && t != [] {
      assert false;
    } else if r != [] && t == [] {
      assert false;
    } else if r != [] {
      var a, b := key(r[0]), key(t[0]);
      if a > b {
        AllBelowNoTies(t, key, a);
        assert false;
      } else if b > a {
        AllBelowNoTies(r, key, b);
        assert false;
      } else {
        assert Ties(r, key, a) == [r[0]] + Ties(r[1..], key, a);
        assert Ties(t, key, a) == [t[0]] + Ties(t[1..], key, a);
        assert Ties(r, key, a) == Ties(t, key, a);
        assert r[0] == Ties(r, key, a)[0] == t[0];
        forall c ensures Ties(r[1..], key, c) == Ties(t[1..], key, c) {
          var p := if a == c then [r[0]] else [];
          assert Ties(r, key, c) == p + Ties(r[1..], key, c);
          assert Ties(t, key, c) == p + Ties(t[1..], key, c);
          assert Ties(r, key, c) == Ties(t, key, c);
          assert Ties(r[1..], key, c) == Ties(r, key, c)[|p|..];
        }
        assert NonIncreasing(r[1..], key) && NonIncreasing(t[1..], key);
        StableSortUnique(r[1..], t[1..], key);
        assert r == [r[0]] + r[1..] && t == [t[0]] + t[1..];
      }
    }
  }

  /** The head of a non-empty sequence is in its own tie class. */
  lemma TiesOfHead<T>(s: seq<T>, key: T -> real)
    ensures s == [] <==> (forall c :: Ties(s, key, c) == [])
    ensures s != [] ==> Ties(s, key, key(s[0])) == [s[0]] + Ties(s[1..], key, key(s[0]))
  {
    if s != [] {
      assert Ties(s, key, key(s[0])) != [];
    }
  }

  /** No element of a non-increasing sequence headed by a key below `c` has key `c`. */
  lemma {:induction false} AllBelowNoTies<T>(s: seq<T>, key: T -> real, c: real)
    requires NonIncreasing(s, key)
    requires s != [] ==> key(s[0]) < c
    ensures Ties(s, key, c) == []
    decreases |s|
  {
    if s != [] {
      if |s| > 1 {
        assert key(s[1]) <= key(s[0]);
      }
      AllBelowNoTies(s[1..], key, c);
    }
  }

  /**
   * The sort of `output_info`: returns `s` sorted stably in descending
   * order of `key`.
   */
  method SortDescending<T>(s: seq<T>, key: T -> real) returns (r: seq<T>)
    ensures r == SortDesc(s, key)
    ensures NonIncreasing(r, key)
    ensures multiset(r) == multiset(s)
    ensures SameTies(r, s, key)
  {
    r := [];
    var i := |s|;
    while i > 0
      invariant 0 <= i <= |s|
      invariant r == SortDesc(s[i..], key)
    {
      i := i - 1;
      assert s[i..][1..] == s[i + 1..];
      r := InsertFront(s[i], r, key);
    }
    assert s[0..] == s;
    SortDescProperties(s, key);
  }
}
