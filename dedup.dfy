/**
 * Keeping the first element per key, as ResolvedPom.deduplicate does with a set of
 * seen keys: the result holds exactly the first occurrence of every key, in the
 * original order, and deduplicating again changes nothing.
 */
module Dedup {

  /** The keys of the elements of `s`. */
  function KeysOf<T, K(==)>(s: seq<T>, key: T -> K): set<K> {
    set i | 0 <= i < |s| :: key(s[i])
  }

  /** `s` with every element dropped whose key an earlier element already has. */
  function FirstPerKey<T, K(==)>(s: seq<T>, key: T -> K): seq<T>
    decreases |s|
  {
    if |s| == 0 then []
    else
      var init := s[..|s| - 1];
      if key(s[|s| - 1]) in KeysOf(init, key) then FirstPerKey(init, key)
      else FirstPerKey(init, key) + [s[|s| - 1]]
  }

  /** Position `j` holds the first element of `s` with its key. */
  predicate IsFirst<T, K(==)>(s: seq<T>, key: T -> K, j: int)
    requires 0 <= j < |s|
  {
    forall i :: 0 <= i < j ==> key(s[i]) != key(s[j])
  }

  /** No two elements share a key. */
  predicate DistinctKeys<T, K(==)>(s: seq<T>, key: T -> K) {
    forall i, j :: 0 <= i < j < |s| ==> key(s[i]) != key(s[j])
  }

  lemma KeysOfSnoc<T, K>(s: seq<T>, key: T -> K)
    requires |s| > 0
    ensures KeysOf(s, key) == KeysOf(s[..|s| - 1], key) + {key(s[|s| - 1])}
  {
    var init := s[..|s| - 1];
    forall k | k in KeysOf(s, key)
      ensures k in KeysOf(init, key) + {key(s[|s| - 1])}
    {
      var i :| 0 <= i < |s| && key(s[i]) == k;
      if i < |s| - 1 {
        assert key(init[i]) == k;
      }
    }
    forall k | k in KeysOf(init, key)
      ensures k in KeysOf(s, key)
    {
      var i :| 0 <= i < |init| && key(init[i]) == k;
      assert key(s[i]) == k;
    }
  }

  /**
   * The kept elements are exactly the first occurrences of their keys, picked out of
   * `s` at increasing positions: a subsequence of `s` that preserves its order.
   */
  lemma {:induction false} FirstPerKeyPositions<T, K>(s: seq<T>, key: T -> K) returns (pos: seq<nat>)
    ensures |pos| == |FirstPerKey(s, key)|
    ensures forall i :: 0 <= i < |pos| ==> pos[i] < |s| && FirstPerKey(s, key)[i] == s[pos[i]] && IsFirst(s, key, pos[i])
    ensures forall i, j :: 0 <= i < j < |pos| ==> pos[i] < pos[j]
    ensures forall j :: 0 <= j < |s| && IsFirst(s, key, j) ==> j in pos
    decreases |s|
  {
    if |s| == 0 {
      return [];
    }
    var n := |s| - 1;
    var init := s[..n];
    var prev := FirstPerKeyPositions(init, key);
    IsFirstInPrefix(s, key);
    if key(s[n]) in KeysOf(init, key) {
      pos := prev;
      LastSeenBefore(s, key);
    } else {
      pos := prev + [n];
      LastUnseenBefore(s, key);
      assert forall i :: 0 <= i < |prev| ==> pos[i] == prev[i];
    }
  }

  /** Below the last position, being first in `s` is being first in `s` without its last element. */
  lemma IsFirstInPrefix<T, K>(s: seq<T>, key: T -> K)
    requires |s| > 0
    ensures forall j :: 0 <= j < |s| - 1 ==> (IsFirst(s, key, j) <==> IsFirst(s[..|s| - 1], key, j))
  {
    var init := s[..|s| - 1];
    forall j | 0 <= j < |s| - 1
      ensures IsFirst(s, key, j) <==> IsFirst(init, key, j)
    {
      assert forall i :: 0 <= i <= j ==> s[i] == init[i];
    }
  }

  lemma LastSeenBefore<T, K>(s: seq<T>, key: T -> K)
    requires |s| > 0 && key(s[|s| - 1]) in KeysOf(s[..|s| - 1], key)
    ensures !IsFirst(s, key, |s| - 1)
  {
    var n := |s| - 1;
    var w :| 0 <= w < n && key(s[..n][w]) == key(s[n]);
    assert key(s[w]) == key(s[n]);
  }

  lemma LastUnseenBefore<T, K>(s: seq<T>, key: T -> K)
    requires |s| > 0 && key(s[|s| - 1]) !in KeysOf(s[..|s| - 1], key)
    ensures IsFirst(s, key, |s| - 1)
  {
    var n := |s| - 1;
    forall i | 0 <= i < n
      ensures key(s[i]) != key(s[n])
    {
      assert s[i] == s[..n][i];
      assert key(s[..n][i]) in KeysOf(s[..n], key);
    }
  }

  /** No two kept elements share a key. */
  lemma FirstPerKeyDistinct<T, K>(s: seq<T>, key: T -> K)
    ensures DistinctKeys(FirstPerKey(s, key), key)
  {
    var pos := FirstPerKeyPositions(s, key);
    var r := FirstPerKey(s, key);
    forall i, j | 0 <= i < j < |r|
      ensures key(r[i]) != key(r[j])
    {
      assert IsFirst(s, key, pos[j]);
      assert pos[i] < pos[j];
    }
  }

  /** Every key of the input is kept. */
  lemma {:induction false} FirstPerKeySameKeys<T, K>(s: seq<T>, key: T -> K)
    ensures KeysOf(FirstPerKey(s, key), key) == KeysOf(s, key)
    decreases |s|
  {
    if |s| > 0 {
      var init := s[..|s| - 1];
      FirstPerKeySameKeys(init, key);
      KeysOfSnoc(s, key);
      if key(s[|s| - 1]) !in KeysOf(init, key) {
        KeysOfSnoc(FirstPerKey(s, key), key);
        assert FirstPerKey(s, key)[..|FirstPerKey(s, key)| - 1] == FirstPerKey(init, key);
      }
    }
  }

  /** A list whose keys are already distinct is left as it is. */
  lemma {:induction false} FirstPerKeyOfDistinct<T, K>(s: seq<T>, key: T -> K)
    requires DistinctKeys(s, key)
    ensures FirstPerKey(s, key) == s
    decreases |s|
  {
    if |s| > 0 {
      var init := s[..|s| - 1];
      assert DistinctKeys(init, key);
      FirstPerKeyOfDistinct(init, key);
      forall w | 0 <= w < |init|
        ensures key(init[w]) != key(s[|s| - 1])
      {
        assert init[w] == s[w];
      }
      assert key(s[|s| - 1]) !in KeysOf(init, key);
      assert init + [s[|s| - 1]] == s;
    }
  }

  /** Deduplicating twice is deduplicating once. */
  lemma FirstPerKeyIdempotent<T, K>(s: seq<T>, key: T -> K)
    ensures FirstPerKey(FirstPerKey(s, key), key) == FirstPerKey(s, key)
  {
    FirstPerKeyDistinct(s, key);
    FirstPerKeyOfDistinct(FirstPerKey(s, key), key);
  }

  /** ListUtils.map with `seen.add(key) ? element : null`: the loop with its set of seen keys. */
  method KeepFirstPerKey<T, K(==)>(s: seq<T>, key: T -> K) returns (r: seq<T>)
    ensures r == FirstPerKey(s, key)
  {
    var seen: set<K> := {};
    r := [];
    var i := 0;
    while i < |s|
      invariant 0 <= i <= |s|
      invariant seen == KeysOf(s[..i], key)
      invariant r == FirstPerKey(s[..i], key)
    {
      assert s[..i + 1][..i] == s[..i];
      KeysOfSnoc(s[..i + 1], key);
      var k := key(s[i]);
      if k !in seen {
        r := r + [s[i]];
        seen := seen + {k};
      }
      i := i + 1;
    }
    assert s[..|s|] == s;
  }
}
