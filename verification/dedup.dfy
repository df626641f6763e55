/** Stable removal of duplicates by a key, keeping the first occurrence: the
    semantics of pandas' `drop_duplicates(subset=[...])` with `keep='first'`. */
module Dedup {

  /** The keys of the elements of `xs`. */
  function KeySet<T, K>(xs: seq<T>, key: T -> K): set<K>
  {
    if |xs| == 0 then {} else KeySet(xs[..|xs| - 1], key) + {key(xs[|xs| - 1])}
  }

  /** Element `i` repeats the key of some earlier element. */
  predicate Duplicated<T, K(==)>(xs: seq<T>, key: T -> K, i: nat)
    requires i < |xs|
  {
    exists j :: 0 <= j < i && key(xs[j]) == key(xs[i])
  }

  /** No two elements share a key. */
  ghost predicate UniqueKeys<T, K>(xs: seq<T>, key: T -> K)
  {
    forall i, j :: 0 <= i < j < |xs| ==> key(xs[i]) != key(xs[j])
  }

  /** `idx` lists, in strictly increasing order, positions of `xs` whose
      elements are exactly `r`: `r` is the subsequence of `xs` at `idx`. */
  ghost predicate SelectedAt<T>(xs: seq<T>, r: seq<T>, idx: seq<int>)
  {
    && |idx| == |r|
    && (forall k :: 0 <= k < |idx| ==> 0 <= idx[k] < |xs| && r[k] == xs[idx[k]])
    && (forall k, l :: 0 <= k < l < |idx| ==> idx[k] < idx[l])
  }

  /** Keeps each element whose key has not occurred earlier, in input order. */
  function DropDuplicates<T, K(==)>(xs: seq<T>, key: T -> K): (r: seq<T>)
    ensures |r| <= |xs|
  {
    if |xs| == 0 then []
    else
      var n := |xs| - 1;
      var kept := DropDuplicates(xs[..n], key);
      if Duplicated(xs, key, n) then kept else kept + [xs[n]]
  }

  /** A key is in `KeySet` exactly when some element carries it. */
  lemma {:induction false} KeySetMembership<T, K>(xs: seq<T>, key: T -> K, k: K)
    ensures k in KeySet(xs, key) <==> exists i :: 0 <= i < |xs| && key(xs[i]) == k
  {
    if |xs| > 0 {
      var n := |xs| - 1;
      KeySetMembership(xs[..n], key, k);
      if k in KeySet(xs[..n], key) {
        var i :| 0 <= i < n && key(xs[..n][i]) == k;
        assert key(xs[i]) == k;
      }
      if exists i :: 0 <= i < |xs| && key(xs[i]) == k {
        var i :| 0 <= i < |xs| && key(xs[i]) == k;
        if i < n {
          assert key(xs[..n][i]) == k;
        }
      }
    }
  }

  /** An element is a duplicate exactly when its key is among the keys before it. */
  lemma DuplicatedIffSeen<T, K>(xs: seq<T>, key: T -> K, i: nat)
    requires i < |xs|
    ensures Duplicated(xs, key, i) <==> key(xs[i]) in KeySet(xs[..i], key)
  {
    KeySetMembership(xs[..i], key, key(xs[i]));
    if Duplicated(xs, key, i) {
      var j :| 0 <= j < i && key(xs[j]) == key(xs[i]);
      assert xs[..i][j] == xs[j];
    }
  }

  /** Whether an element is a duplicate depends only on the elements up to it. */
  lemma DuplicatedInPrefix<T, K>(xs: seq<T>, key: T -> K, i: nat, n: nat)
    requires i < n <= |xs|
    ensures Duplicated(xs[..n], key, i) <==> Duplicated(xs, key, i)
  {
    if Duplicated(xs, key, i) {
      var j :| 0 <= j < i && key(xs[j]) == key(xs[i]);
      assert key(xs[..n][j]) == key(xs[..n][i]);
    }
  }

  /** Dropping duplicates loses no key. */
  lemma {:induction false} DropDuplicatesKeySet<T, K>(xs: seq<T>, key: T -> K)
    ensures KeySet(DropDuplicates(xs, key), key) == KeySet(xs, key)
  {
    if |xs| > 0 {
      var n := |xs| - 1;
      var kept := DropDuplicates(xs[..n], key);
      DropDuplicatesKeySet(xs[..n], key);
      assert xs[..n] == xs[..n][..n];
      DuplicatedIffSeen(xs, key, n);
      if !Duplicated(xs, key, n) {
        assert (kept + [xs[n]])[..|kept|] == kept;
      }
    }
  }

  /** After dropping duplicates no two elements share a key. */
  lemma {:induction false} DropDuplicatesUniqueKeys<T, K>(xs: seq<T>, key: T -> K)
    ensures UniqueKeys(DropDuplicates(xs, key), key)
  {
    if |xs| > 0 {
      var n := |xs| - 1;
      var kept := DropDuplicates(xs[..n], key);
      DropDuplicatesUniqueKeys(xs[..n], key);
      if !Duplicated(xs, key, n) {
        var r := kept + [xs[n]];
        DuplicatedIffSeen(xs, key, n);
        DropDuplicatesKeySet(xs[..n], key);
        forall i | 0 <= i < |kept|
          ensures key(r[i]) != key(r[|kept|])
        {
          KeySetMembership(kept, key, key(kept[i]));
        }
      }
    }
  }

  /** A selection from a prefix of `xs` is a selection from `xs`, and stays one
      when the next position is appended. */
  lemma SelectedAtExtend<T>(xs: seq<T>, n: nat, kept: seq<T>, idx: seq<int>)
    requires n < |xs| && SelectedAt(xs[..n], kept, idx)
    ensures SelectedAt(xs, kept, idx)
    ensures SelectedAt(xs, kept + [xs[n]], idx + [n])
    ensures n !in idx
  {
    forall k | 0 <= k < |idx|
      ensures 0 <= idx[k] < n && kept[k] == xs[idx[k]]
    {
      assert xs[..n][idx[k]] == xs[idx[k]];
    }
  }

  /** The output is the subsequence of the input at exactly the positions whose
      key has not occurred earlier: order is kept, every first occurrence is
      kept, and every later occurrence is dropped. */
  lemma {:induction false} DropDuplicatesSelectsFirstOccurrences<T, K>(xs: seq<T>, key: T -> K)
    ensures exists idx ::
              && SelectedAt(xs, DropDuplicates(xs, key), idx)
              && forall i :: 0 <= i < |xs| ==> (i in idx <==> !Duplicated(xs, key, i))
  {
    if |xs| == 0 {
      assert SelectedAt(xs, DropDuplicates(xs, key), []);
    } else {
      var n := |xs| - 1;
      var kept := DropDuplicates(xs[..n], key);
      DropDuplicatesSelectsFirstOccurrences(xs[..n], key);
      var idx0 :| SelectedAt(xs[..n], kept, idx0)
        && forall i :: 0 <= i < n ==> (i in idx0 <==> !Duplicated(xs[..n], key, i));
      SelectedAtExtend(xs, n, kept, idx0);
      var idx := if Duplicated(xs, key, n) then idx0 else idx0 + [n];
      forall i | 0 <= i < |xs|
        ensures i in idx <==> !Duplicated(xs, key, i)
      {
        if i < n {
          DuplicatedInPrefix(xs, key, i, n);
        }
      }
      assert SelectedAt(xs, DropDuplicates(xs, key), idx);
    }
  }

  /** A sequence with unique keys has as many keys as elements. */
  lemma {:induction false} UniqueKeysCardinality<T, K>(xs: seq<T>, key: T -> K)
    requires UniqueKeys(xs, key)
    ensures |KeySet(xs, key)| == |xs|
  {
    if |xs| > 0 {
      var n := |xs| - 1;
      assert UniqueKeys(xs[..n], key);
      UniqueKeysCardinality(xs[..n], key);
      KeySetMembership(xs[..n], key, key(xs[n]));
    }
  }

  /** The output has one element per distinct key, so the number removed is the
      input length less the number of distinct keys. */
  lemma DropDuplicatesCount<T, K>(xs: seq<T>, key: T -> K)
    ensures |DropDuplicates(xs, key)| == |KeySet(xs, key)|
    ensures |xs| - |DropDuplicates(xs, key)| == |xs| - |KeySet(xs, key)|
  {
    DropDuplicatesUniqueKeys(xs, key);
    DropDuplicatesKeySet(xs, key);
    UniqueKeysCardinality(DropDuplicates(xs, key), key);
  }

  /** A sequence without repeated keys is left unchanged. */
  lemma {:induction false} DropDuplicatesOfUnique<T, K>(xs: seq<T>, key: T -> K)
    requires UniqueKeys(xs, key)
    ensures DropDuplicates(xs, key) == xs
  {
    if |xs| > 0 {
      var n := |xs| - 1;
      assert UniqueKeys(xs[..n], key);
      DropDuplicatesOfUnique(xs[..n], key);
      assert xs[..n] + [xs[n]] == xs;
    }
  }

  /** Dropping duplicates twice is the same as dropping them once. */
  lemma DropDuplicatesIdempotent<T, K>(xs: seq<T>, key: T -> K)
    ensures DropDuplicates(DropDuplicates(xs, key), key) == DropDuplicates(xs, key)
  {
    DropDuplicatesUniqueKeys(xs, key);
    DropDuplicatesOfUnique(DropDuplicates(xs, key), key);
  }

  /** The first element with a given key survives, and it is the only survivor
      with that key: a later element with the same key but other contents is gone. */
  lemma DropDuplicatesKeepsFirst<T, K>(xs: seq<T>, key: T -> K, i: nat)
    requires i < |xs| && !Duplicated(xs, key, i)
    ensures xs[i] in DropDuplicates(xs, key)
    ensures forall x :: x in DropDuplicates(xs, key) && key(x) == key(xs[i]) ==> x == xs[i]
    ensures forall j :: i < j < |xs| && key(xs[j]) == key(xs[i]) && xs[j] != xs[i] ==> xs[j] !in DropDuplicates(xs, key)
  {
    var r := DropDuplicates(xs, key);
    DropDuplicatesSelectsFirstOccurrences(xs, key);
    var idx :| SelectedAt(xs, r, idx) && forall m :: 0 <= m < |xs| ==> (m in idx <==> !Duplicated(xs, key, m));
    assert i in idx;
    var k :| 0 <= k < |idx| && idx[k] == i;
    assert r[k] == xs[i];
    DropDuplicatesUniqueKeys(xs, key);
    forall x | x in r && key(x) == key(xs[i])
      ensures x == xs[i]
    {
      var l :| 0 <= l < |r| && r[l] == x;
      assert l == k;
    }
  }

  /** Of three elements where the third repeats the first one's key and the
      second has another key, the first two remain. */
  lemma DropDuplicatesThree<T, K>(t: seq<T>, key: T -> K)
    requires |t| == 3 && key(t[0]) == key(t[2]) && key(t[0]) != key(t[1])
    ensures DropDuplicates(t, key) == [t[0], t[1]]
  {
    assert t[..2][..1] == [t[0]] && [t[0]][..0] == [];
    assert DropDuplicates([t[0]], key) == [t[0]];
    assert !Duplicated(t[..2], key, 1);
    assert DropDuplicates(t[..2], key) == [t[0], t[1]];
    assert Duplicated(t, key, 2) by {
      assert key(t[0]) == key(t[2]);
    }
  }

  /** The same operation as a single forward pass that remembers the keys seen
      so far. */
  method DropDuplicatesBySeen<T, K(==)>(xs: seq<T>, key: T -> K) returns (r: seq<T>)
    ensures r == DropDuplicates(xs, key)
  {
    var seen: set<K> := {};
    r := [];
    var i := 0;
    while i < |xs|
      invariant 0 <= i <= |xs|
      invariant seen == KeySet(xs[..i], key)
      invariant r == DropDuplicates(xs[..i], key)
    {
      var k := key(xs[i]);
      DuplicatedIffSeen(xs[..i + 1], key, i);
      assert xs[..i + 1][..i] == xs[..i];
      if k !in seen {
        r := r + [xs[i]];
        seen := seen + {k};
      }
      i := i + 1;
    }
    assert xs[..|xs|] == xs;
  }
}
