/**
 The min sketch of a set of keys: for each of a number of keyed hash functions the least hash
 of any key. It is updated key by key and estimates how much two sets differ.
 */
module Sketch {
  import opened Wrappers

  /** The largest 64 bit hash, which stands for the empty set. */
  const NO_HASH: int := 0xffff_ffff_ffff_ffff

  /** The hash functions of a sketch: `rank(key, i)` is the hash of a key under the i-th of n of them. */
  datatype Sketcher<!K> = Sketcher(n: nat, rank: (K, nat) -> int)

  function Min(a: int, b: int): (r: int)
    ensures r <= a && r <= b && (r == a || r == b)
  {
    if a <= b then a else b
  }

  /** The least hash of a set of keys under the i-th function. */
  ghost function Least<K(!new)>(sk: Sketcher<K>, keys: set<K>, i: nat): int {
    if keys == {} then NO_HASH
    else
      var key :| key in keys;
      Min(sk.rank(key, i), Least(sk, keys - {key}, i))
  }

  /** It is a lower bound of the hashes, and one of them unless the set is empty. */
  lemma {:induction false} LeastIsLeast<K(!new)>(sk: Sketcher<K>, keys: set<K>, i: nat)
    ensures forall key :: key in keys ==> Least(sk, keys, i) <= sk.rank(key, i)
    ensures Least(sk, keys, i) <= NO_HASH
    ensures Least(sk, keys, i) == NO_HASH || exists key :: key in keys && sk.rank(key, i) == Least(sk, keys, i)
    decreases keys
  {
    if keys != {} {
      var first :| first in keys && Least(sk, keys, i) == Min(sk.rank(first, i), Least(sk, keys - {first}, i));
      LeastIsLeast(sk, keys - {first}, i);
      var here, rest := sk.rank(first, i), Least(sk, keys - {first}, i);
      assert Min(here, rest) <= here && Min(here, rest) <= rest;
    }
  }

  ghost function SketchOf<K(!new)>(sk: Sketcher<K>, keys: set<K>): (v: seq<int>)
    ensures |v| == sk.n
  {
    seq(sk.n, i requires 0 <= i < sk.n => Least(sk, keys, i))
  }

  function WithKey<K(!new)>(sk: Sketcher<K>, v: seq<int>, key: K): (r: seq<int>)
    ensures |r| == |v|
  {
    seq(|v|, i requires 0 <= i < |v| => Min(v[i], sk.rank(key, i)))
  }

  /** Adding a key to the sketch of a set gives the sketch of the larger set, whether the key is new or not. */
  lemma WithKeyIsSketch<K(!new)>(sk: Sketcher<K>, keys: set<K>, key: K)
    ensures WithKey(sk, SketchOf(sk, keys), key) == SketchOf(sk, keys + {key})
  {
    forall i | 0 <= i < sk.n
      ensures WithKey(sk, SketchOf(sk, keys), key)[i] == SketchOf(sk, keys + {key})[i]
    {
      LeastIsLeast(sk, keys, i);
      LeastIsLeast(sk, keys + {key}, i);
      assert key in keys + {key};
      assert forall k :: k in keys ==> k in keys + {key};
    }
  }

  /** Pointwise at most. */
  ghost predicate Below(v: seq<int>, w: seq<int>) {
    |v| == |w| && forall i :: 0 <= i < |v| ==> v[i] <= w[i]
  }

  /** The sketch of a larger set is pointwise smaller. */
  lemma SketchAntitone<K(!new)>(sk: Sketcher<K>, a: set<K>, b: set<K>)
    requires a <= b
    ensures Below(SketchOf(sk, b), SketchOf(sk, a))
  {
    forall i | 0 <= i < sk.n ensures SketchOf(sk, b)[i] <= SketchOf(sk, a)[i] {
      LeastIsLeast(sk, a, i);
      LeastIsLeast(sk, b, i);
    }
  }

  /** The update of a sketch in place. */
  method AddToMinSketch<K(!new)>(sk: Sketcher<K>, minHashes: array<int>, key: K)
    requires minHashes.Length == sk.n
    modifies minHashes
    ensures minHashes[..] == WithKey(sk, old(minHashes[..]), key)
  {
    for i := 0 to sk.n
      invariant forall j :: 0 <= j < sk.n ==>
                              minHashes[j] ==
                              if j < i then Min(old(minHashes[j]), sk.rank(key, j)) else old(minHashes[j])
    {
      minHashes[i] := Min(minHashes[i], sk.rank(key, i));
    }
  }

  /** The sketch of a list of keys and the number of keys in the list. */
  method MinSketch<K(==, !new)>(sk: Sketcher<K>, ids: seq<K>) returns (v: seq<int>, count: nat)
    ensures v == SketchOf(sk, AllEntries(ids))
    ensures count == |ids|
  {
    var minHashes := new int[sk.n](_ => NO_HASH);
    assert minHashes[..] == SketchOf(sk, Entries(ids, 0));
    count := 0;
    for i := 0 to |ids|
      invariant minHashes[..] == SketchOf(sk, Entries(ids, i))
      invariant count == i
    {
      WithKeyIsSketch(sk, Entries(ids, i), ids[i]);
      AddToMinSketch(sk, minHashes, ids[i]);
      count := count + 1;
    }
    v := minHashes[..];
  }
}
