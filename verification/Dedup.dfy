/** Keeping the first element for each key, for any elements and any key function. */
module Dedup {
  import opened Prelude

  function Keys<T, K>(xs: seq<T>, key: T -> K): set<K> {
    set i | 0 <= i < |xs| :: key(xs[i])
  }

  /** The elements whose key is neither in `seen` nor met earlier. */
  function Dedup<T, K(==)>(xs: seq<T>, key: T -> K, seen: set<K>): seq<T>
    decreases |xs|
  {
    if |xs| == 0 then []
    else if key(xs[0]) in seen then Dedup(xs[1..], key, seen)
    else [xs[0]] + Dedup(xs[1..], key, seen + {key(xs[0])})
  }

  ghost predicate DistinctKeys<T, K>(xs: seq<T>, key: T -> K) {
    forall i, j :: 0 <= i < j < |xs| ==> key(xs[i]) != key(xs[j])
  }

  lemma KeysConcat<T, K>(a: seq<T>, b: seq<T>, key: T -> K)
    ensures Keys(a + b, key) == Keys(a, key) + Keys(b, key)
  {
    forall k | k in Keys(a, key) + Keys(b, key)
      ensures k in Keys(a + b, key)
    {
      if k in Keys(a, key) {
        var i :| 0 <= i < |a| && k == key(a[i]);
        assert (a + b)[i] == a[i];
      } else {
        var i :| 0 <= i < |b| && k == key(b[i]);
        assert (a + b)[|a| + i] == b[i];
      }
    }
  }

  lemma KeysOne<T, K>(x: T, key: T -> K)
    ensures Keys([x], key) == {key(x)}
  {
    assert key([x][0]) in Keys([x], key);
  }

  lemma KeysAppend<T, K>(xs: seq<T>, x: T, key: T -> K)
    ensures Keys(xs + [x], key) == Keys(xs, key) + {key(x)}
  {
    KeysConcat(xs, [x], key);
    KeysOne(x, key);
  }

  lemma LastIsNew<T, K>(xs: seq<T>, x: T, key: T -> K)
    requires DistinctKeys(xs + [x], key)
    ensures DistinctKeys(xs, key) && key(x) !in Keys(xs, key)
  {
    var all := xs + [x];
    forall i, j | 0 <= i < j < |xs|
      ensures key(xs[i]) != key(xs[j])
    {
      assert all[i] == xs[i] && all[j] == xs[j];
    }
    forall i | 0 <= i < |xs|
      ensures key(xs[i]) != key(x)
    {
      assert all[i] == xs[i] && all[|xs|] == x;
    }
  }

  lemma {:induction false} DistinctKeysCount<T, K>(xs: seq<T>, key: T -> K)
    requires DistinctKeys(xs, key)
    ensures |Keys(xs, key)| == |xs|
  {
    if xs != [] {
      var n := |xs| - 1;
      assert xs == xs[..n] + [xs[n]];
      LastIsNew(xs[..n], xs[n], key);
      KeysAppend(xs[..n], xs[n], key);
      DistinctKeysCount(xs[..n], key);
    }
  }

  /** What is kept: exactly one element per new key, and only new keys. */
  lemma {:induction false} DedupKeys<T, K>(xs: seq<T>, key: T -> K, seen: set<K>)
    ensures Keys(Dedup(xs, key, seen), key) == Keys(xs, key) - seen
    ensures DistinctKeys(Dedup(xs, key, seen), key)
    decreases |xs|
  {
    if xs != [] {
      if key(xs[0]) in seen {
        DedupKeys(xs[1..], key, seen);
      } else {
        var rest := Dedup(xs[1..], key, seen + {key(xs[0])});
        DedupKeys(xs[1..], key, seen + {key(xs[0])});
        KeysConcat([xs[0]], rest, key);
        KeysOne(xs[0], key);
      }
    }
  }

  lemma DedupCount<T, K>(xs: seq<T>, key: T -> K)
    ensures Keys(Dedup(xs, key, {}), key) == Keys(xs, key)
    ensures |Dedup(xs, key, {})| == |Keys(xs, key)|
  {
    DedupKeys(xs, key, {});
    DistinctKeysCount(Dedup(xs, key, {}), key);
  }

  lemma {:induction false} DedupMembers<T, K>(xs: seq<T>, key: T -> K, seen: set<K>)
    ensures forall x :: x in Dedup(xs, key, seen) ==> x in xs
    decreases |xs|
  {
    if xs != [] {
      DedupMembers(xs[1..], key, seen);
      DedupMembers(xs[1..], key, seen + {key(xs[0])});
    }
  }

  lemma {:induction false} DedupConcat<T, K>(a: seq<T>, b: seq<T>, key: T -> K, seen: set<K>)
    ensures Dedup(a + b, key, seen) == Dedup(a, key, seen) + Dedup(b, key, seen + Keys(a, key))
    decreases |a|
  {
    if a == [] {
      assert a + b == b;
      assert seen + Keys(a, key) == seen;
    } else {
      assert (a + b)[0] == a[0] && (a + b)[1..] == a[1..] + b;
      if key(a[0]) in seen {
        DedupConcat(a[1..], b, key, seen);
        assert seen + Keys(a[1..], key) == seen + Keys(a, key);
      } else {
        DedupConcat(a[1..], b, key, seen + {key(a[0])});
        assert seen + {key(a[0])} + Keys(a[1..], key) == seen + Keys(a, key);
      }
    }
  }

  lemma DedupAppend<T, K>(xs: seq<T>, x: T, key: T -> K, seen: set<K>)
    ensures Dedup(xs + [x], key, seen) ==
            Dedup(xs, key, seen) + (if key(x) in seen || key(x) in Keys(xs, key) then [] else [x])
  {
    DedupConcat(xs, [x], key, seen);
    assert [x][1..] == [];
  }

  lemma {:induction false} DedupAllSeen<T, K>(xs: seq<T>, key: T -> K, seen: set<K>)
    requires Keys(xs, key) <= seen
    ensures Dedup(xs, key, seen) == []
    decreases |xs|
  {
    if xs != [] {
      DedupAllSeen(xs[1..], key, seen);
    }
  }

  lemma {:induction false} DedupNothing<T, K>(xs: seq<T>, key: T -> K, seen: set<K>)
    requires DistinctKeys(xs, key) && Keys(xs, key) !! seen
    ensures Dedup(xs, key, seen) == xs
    decreases |xs|
  {
    if xs != [] {
      forall k | k in Keys(xs[1..], key)
        ensures k != key(xs[0])
      {
        var i :| 0 <= i < |xs[1..]| && k == key(xs[1..][i]);
        assert xs[1..][i] == xs[i + 1];
      }
      DedupNothing(xs[1..], key, seen + {key(xs[0])});
    }
  }

  // ---------------------------------------------------------------- the same, said by position

  ghost predicate Repeats<T, K>(xs: seq<T>, key: T -> K, n: nat)
    requires n < |xs|
  {
    exists i :: 0 <= i < n && key(xs[i]) == key(xs[n])
  }

  /** Among the first `n` elements, those no earlier one shares a key with, in order. */
  ghost function FirstOccurrences<T, K>(xs: seq<T>, key: T -> K, n: nat): seq<T>
    requires n <= |xs|
  {
    if n == 0 then []
    else FirstOccurrences(xs, key, n - 1) + (if Repeats(xs, key, n - 1) then [] else [xs[n - 1]])
  }

  lemma RepeatsIsSeen<T, K>(xs: seq<T>, key: T -> K, n: nat)
    requires n < |xs|
    ensures Repeats(xs, key, n) <==> key(xs[n]) in Keys(xs[..n], key)
  {
    if i :| 0 <= i < n && key(xs[i]) == key(xs[n]) {
      assert key(xs[..n][i]) in Keys(xs[..n], key);
    }
  }

  lemma {:induction false} DedupPrefix<T, K>(xs: seq<T>, key: T -> K, n: nat)
    requires n <= |xs|
    ensures Dedup(xs[..n], key, {}) == FirstOccurrences(xs, key, n)
  {
    if n > 0 {
      DedupPrefix(xs, key, n - 1);
      RepeatsIsSeen(xs, key, n - 1);
      DedupAppend(xs[..n - 1], xs[n - 1], key, {});
      assert xs[..n] == xs[..n - 1] + [xs[n - 1]];
    }
  }

  lemma DedupIsFirstOccurrences<T, K>(xs: seq<T>, key: T -> K)
    ensures Dedup(xs, key, {}) == FirstOccurrences(xs, key, |xs|)
  {
    DedupPrefix(xs, key, |xs|);
    assert xs[..|xs|] == xs;
  }

  /** Appends to `kept` the elements whose key is new; `before` is everything offered so far. */
  method AddNew<T, K(==)>(kept: seq<T>, keys: set<K>, ghost before: seq<T>, key: T -> K, xs: seq<T>)
    returns (kept': seq<T>, keys': set<K>)
    requires kept == Dedup(before, key, {}) && keys == Keys(before, key)
    ensures kept' == Dedup(before + xs, key, {}) && keys' == Keys(before + xs, key)
  {
    kept', keys' := kept, keys;
    assert before + xs[..0] == before;
    for i := 0 to |xs|
      invariant kept' == Dedup(before + xs[..i], key, {}) && keys' == Keys(before + xs[..i], key)
    {
      ghost var sofar := before + xs[..i];
      assert before + xs[..i + 1] == sofar + [xs[i]];
      DedupAppend(sofar, xs[i], key, {});
      KeysAppend(sofar, xs[i], key);
      var k := key(xs[i]);
      if k !in keys' {
        keys' := keys' + {k};
        kept' := kept' + [xs[i]];
      }
    }
    assert xs[..|xs|] == xs;
  }

  method CollectKeys<T, K(==)>(xs: seq<T>, key: T -> K) returns (keys: set<K>)
    ensures keys == Keys(xs, key)
  {
    keys := {};
    for i := 0 to |xs|
      invariant keys == Keys(xs[..i], key)
    {
      assert xs[..i + 1] == xs[..i] + [xs[i]];
      KeysAppend(xs[..i], xs[i], key);
      keys := keys + {key(xs[i])};
    }
    assert xs[..|xs|] == xs;
  }

  // ---------------------------------------------------------------- removal

  function Reject<T>(xs: seq<T>, drop: T -> bool): seq<T> {
    if |xs| == 0 then []
    else
      var n := |xs| - 1;
      Reject(xs[..n], drop) + (if drop(xs[n]) then [] else [xs[n]])
  }

  lemma {:induction false} NothingLost<T>(xs: seq<T>, drop: T -> bool)
    ensures multiset(Filter(xs, drop)) + multiset(Reject(xs, drop)) == multiset(xs)
  {
    if xs != [] {
      var n := |xs| - 1;
      NothingLost(xs[..n], drop);
      assert xs == xs[..n] + [xs[n]];
      assert multiset(xs) == multiset(xs[..n]) + multiset{xs[n]};
      if drop(xs[n]) {
        assert Filter(xs, drop) == Filter(xs[..n], drop) + [xs[n]] && Reject(xs, drop) == Reject(xs[..n], drop);
      } else {
        assert Filter(xs, drop) == Filter(xs[..n], drop) && Reject(xs, drop) == Reject(xs[..n], drop) + [xs[n]];
      }
    }
  }

  lemma {:induction false} RightSides<T>(xs: seq<T>, drop: T -> bool)
    ensures (forall x :: x in Filter(xs, drop) ==> drop(x)) && (forall x :: x in Reject(xs, drop) ==> !drop(x))
  {
    if xs != [] {
      RightSides(xs[..|xs| - 1], drop);
    }
  }

  /** Splits a list in two, keeping the order on both sides. */
  method Partition<T>(xs: seq<T>, drop: T -> bool) returns (removed: seq<T>, retained: seq<T>)
    ensures removed == Filter(xs, drop) && retained == Reject(xs, drop)
    ensures multiset(removed) + multiset(retained) == multiset(xs)
    ensures (forall x :: x in removed ==> drop(x)) && (forall x :: x in retained ==> !drop(x))
  {
    removed, retained := [], [];
    for i := 0 to |xs|
      invariant removed == Filter(xs[..i], drop) && retained == Reject(xs[..i], drop)
    {
      assert xs[..i + 1][..i] == xs[..i];
      if drop(xs[i]) {
        removed := removed + [xs[i]];
      } else {
        retained := retained + [xs[i]];
      }
    }
    assert xs[..|xs|] == xs;
    NothingLost(xs, drop);
    RightSides(xs, drop);
  }

  lemma {:induction false} RejectKeys<T, K>(xs: seq<T>, drop: T -> bool, key: T -> K)
    ensures Keys(Reject(xs, drop), key) <= Keys(xs, key)
  {
    if xs != [] {
      var n := |xs| - 1;
      RejectKeys(xs[..n], drop, key);
      assert xs == xs[..n] + [xs[n]];
      KeysAppend(xs[..n], xs[n], key);
      KeysAppend(Reject(xs[..n], drop), xs[n], key);
      assert Reject(xs[..n], drop) + [] == Reject(xs[..n], drop);
    }
  }

  lemma {:induction false} RejectDistinct<T, K>(xs: seq<T>, drop: T -> bool, key: T -> K)
    requires DistinctKeys(xs, key)
    ensures DistinctKeys(Reject(xs, drop), key)
  {
    if xs != [] {
      var n := |xs| - 1;
      assert xs == xs[..n] + [xs[n]];
      LastIsNew(xs[..n], xs[n], key);
      RejectDistinct(xs[..n], drop, key);
      RejectKeys(xs[..n], drop, key);
      assert Reject(xs[..n], drop) + [] == Reject(xs[..n], drop);
    }
  }
}
