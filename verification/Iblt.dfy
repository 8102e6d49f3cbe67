/**
 The invertible Bloom lookup table with its operations on buckets in place, and the
 iterator over the buckets of one key.
 */
module Iblt {
  import opened Wrappers
  import opened Algebra

  /* ---------- the buckets of one key ---------- */

  predicate Ascending(s: seq<nat>) {
    forall i, j :: 0 <= i < j < |s| ==> s[i] <= s[j]
  }

  predicate StrictlyAscending(s: seq<nat>) {
    forall i, j :: 0 <= i < j < |s| ==> s[i] < s[j]
  }

  function InsertSorted(x: nat, s: seq<nat>): (r: seq<nat>)
    requires Ascending(s)
    ensures Ascending(r) && |r| == |s| + 1
    ensures forall y :: y in r <==> y == x || y in s
  {
    if s == [] then [x]
    else if x <= s[0] then [x] + s
    else
      var r := InsertSorted(x, s[1..]);
      assert s == [s[0]] + s[1..];
      assert forall i :: 0 <= i < |r| ==> r[i] in r;
      [s[0]] + r
  }

  function Sorted(s: seq<nat>): (r: seq<nat>)
    ensures Ascending(r) && |r| == |s|
    ensures forall y :: y in r <==> y in s
  {
    if s == [] then []
    else
      assert s == [s[0]] + s[1..];
      InsertSorted(s[0], Sorted(s[1..]))
  }

  /** An ascending sequence with its repetitions dropped. */
  function Distinct(s: seq<nat>): (r: seq<nat>)
    ensures s != [] ==> r != [] && r[0] == s[0]
  {
    if s == [] then []
    else if |s| > 1 && s[0] == s[1] then Distinct(s[1..])
    else [s[0]] + Distinct(s[1..])
  }

  lemma {:induction false} DistinctIsStrict(s: seq<nat>)
    requires Ascending(s)
    ensures StrictlyAscending(Distinct(s))
    ensures forall x :: x in Distinct(s) <==> x in s
  {
    if s != [] {
      DistinctIsStrict(s[1..]);
      assert s == [s[0]] + s[1..];
    }
  }

  /** The buckets of a key, each listed once and in ascending order. */
  function BucketList<K>(p: Scheme<K>, m: nat, key: K): seq<nat>
    requires 0 < m
  {
    Distinct(Sorted(Hashed(p, m, key)))
  }

  /** The list names every bucket of the key and names it once. */
  ghost predicate ListsBuckets<K(!new)>(p: Scheme<K>, m: nat, key: K, list: seq<nat>)
    requires 0 < m
  {
    StrictlyAscending(list) && forall n :: n in list <==> Touches(p, m, key, n)
  }

  /** However the hash functions collide, every bucket of the key is visited exactly once, in ascending order. */
  lemma BucketListComplete<K(!new)>(p: Scheme<K>, m: nat, key: K)
    requires 0 < m
    ensures ListsBuckets(p, m, key, BucketList(p, m, key))
  {
    DistinctIsStrict(Sorted(Hashed(p, m, key)));
  }

  /** The entry a loop over the list stands at, or the size of the table when it is through. */
  function Front(m: nat, list: seq<nat>, i: nat): nat
    requires i <= |list|
  {
    if i < |list| then list[i] else m
  }

  /** The list as a loop sees it: each entry is a bucket of the key, and there is none in between. */
  ghost predicate Sweeps<K(!new)>(p: Scheme<K>, m: nat, key: K, list: seq<nat>)
    requires 0 < m
  {
    && (forall i :: 0 <= i < |list| ==> list[i] < m)
    && (forall i: nat :: i <= |list| ==> SweepsTo(p, m, key, list, i))
  }

  /** Entry i is the next bucket of the key. */
  ghost predicate SweepsTo<K(!new)>(p: Scheme<K>, m: nat, key: K, list: seq<nat>, i: nat)
    requires 0 < m && i <= |list|
  {
    && (i < |list| ==> Touches(p, m, key, list[i]))
    && Front(m, list, i) <= m && (i > 0 ==> list[i - 1] < Front(m, list, i))
    && (forall n: nat :: n < Front(m, list, i) && (i == 0 || list[i - 1] < n) ==> !Touches(p, m, key, n))
  }

  lemma ListSweeps<K(!new)>(p: Scheme<K>, m: nat, key: K, list: seq<nat>)
    requires 0 < m && Lawful(p) && ListsBuckets(p, m, key, list)
    ensures Sweeps(p, m, key, list)
  {
    forall i | 0 <= i < |list| ensures list[i] < m && Touches(p, m, key, list[i]) {
      assert list[i] in list;
    }
    forall i: nat | i <= |list| ensures SweepsTo(p, m, key, list, i) {
      forall n: nat | n < Front(m, list, i) && (i == 0 || list[i - 1] < n) ensures !Touches(p, m, key, n) {
        assert forall j :: 0 <= j < |list| ==> list[j] != n;
      }
    }
  }

  /** What an iterator that has passed `pos` entries of an ascending sequence has still to yield. */
  ghost function Ahead(buckets: seq<nat>, pos: nat): seq<nat>
    requires pos <= |buckets|
  {
    if pos == 0 then Distinct(buckets) else Distinct(buckets[pos - 1..])[1..]
  }

  class BucketIterator {
    const buckets: seq<nat>
    var pos: nat
    var last: nat
    // the buckets of the key, and how many of them have been yielded
    ghost const list: seq<nat>
    ghost var at: nat

    ghost predicate Valid()
      reads this
    {
      && pos <= |buckets| && (pos > 0 ==> last == buckets[pos - 1])
      && at <= |list| && Ahead(buckets, pos) == list[at..]
    }

    constructor Create<K(!new)>(p: Scheme<K>, m: nat, key: K)
      requires 0 < m
      ensures Valid() && at == 0 && list == BucketList(p, m, key)
    {
      buckets := Sorted(Hashed(p, m, key));
      pos, last := 0, 0;
      list, at := BucketList(p, m, key), 0;
    }

    method Next() returns (r: Option<nat>)
      requires Valid()
      modifies this
      ensures Valid()
      ensures old(at) == |list| ==> r == None && at == |list|
      ensures old(at) < |list| ==> r == Some(list[old(at)]) && at == old(at) + 1
    {
      if pos > 0 {
        while pos < |buckets| && last == buckets[pos]
          invariant 0 < pos <= |buckets| && last == buckets[pos - 1]
          invariant at == old(at) <= |list| && Ahead(buckets, pos) == list[at..]
        {
          assert buckets[pos - 1..][1..] == buckets[pos..];
          pos := pos + 1;
        }
        assert buckets[pos - 1..][1..] == buckets[pos..];
        assert pos == |buckets| ==> Distinct(buckets[pos..]) == [];
      }
      if pos == |buckets| {
        return None;
      }
      assert buckets[0..] == buckets;
      last := buckets[pos];
      pos := pos + 1;
      at := at + 1;
      r := Some(last);
    }
  }

  /** Runs the iterator to its end. */
  method Buckets<K(!new)>(p: Scheme<K>, m: nat, key: K) returns (list: seq<nat>)
    requires 0 < m
    ensures ListsBuckets(p, m, key, list)
  {
    list := [];
    var it := new BucketIterator.Create(p, m, key);
    var n := it.Next();
    while n.Some?
      invariant it.Valid() && fresh(it) && it.list == BucketList(p, m, key)
      invariant list <= it.list
      invariant if |list| < |it.list| then n == Some(it.list[|list|]) && it.at == |list| + 1 else n == None &&
                                                                                                  it.at == |list|
      decreases |it.list| - |list|
    {
      list := list + [n.value];
      n := it.Next();
    }
    BucketListComplete(p, m, key);
  }

  /* ---------- the table ---------- */

  /** The positions below a bound have reached their goal, the others are as they were. */
  ghost predicate Partly<T>(start: seq<T>, goal: seq<T>, now: seq<T>, bound: nat) {
    |start| == |goal| == |now| && forall j :: 0 <= j < |now| ==> now[j] == if j < bound then goal[j] else start[j]
  }

  lemma FirstBucket<K(!new)>(p: Scheme<K>, start: seq<Bucket<K>>, key: K, c: int, list: seq<nat>)
    requires 0 < |start| && Sweeps(p, |start|, key, list)
    ensures Partly(start, Toggled(p, start, key, c), start, Front(|start|, list, 0))
  {
    assert SweepsTo(p, |start|, key, list, 0);
  }

  /** The next bucket of the list is untouched so far and only needs its own update. */
  lemma NextBucket<K(!new)>(p: Scheme<K>, start: seq<Bucket<K>>, now: seq<Bucket<K>>, key: K, c: int, list: seq<nat>,
                            i: nat)
    requires 0 < |start| && Sweeps(p, |start|, key, list) && i < |list|
    requires Partly(start, Toggled(p, start, key, c), now, Front(|start|, list, i))
    ensures list[i] < |now|
    ensures ToggledOnce(p, now[list[i]], key, c) == Toggled(p, start, key, c)[list[i]]
    ensures Partly(start, Toggled(p, start, key, c), now[list[i] := ToggledOnce(p, now[list[i]], key, c)],
                   Front(|start|, list, i + 1))
  {
    assert SweepsTo(p, |start|, key, list, i) && SweepsTo(p, |start|, key, list, i + 1);
  }

  class Iblt<K(==, !new)> {
    const scheme: Scheme<K>
    var buckets: seq<Bucket<K>>

    constructor (m: nat, scheme: Scheme<K>)
      requires |scheme.ks| <= K_MAX
      ensures this.scheme == scheme && buckets == NewTable(scheme, m)
    {
      this.scheme := scheme;
      buckets := NewTable(scheme, m);
    }

    method Insert(key: K)
      requires Lawful(scheme) && 0 < |buckets|
      modifies this
      ensures buckets == Toggled(scheme, old(buckets), key, 1)
    {
      Update(key, 1);
    }

    method Delete(key: K)
      requires Lawful(scheme) && 0 < |buckets|
      modifies this
      ensures buckets == Toggled(scheme, old(buckets), key, -1)
    {
      Update(key, -1);
    }

    /** Visits the buckets of a key one by one, as insertion and deletion both do. */
    method Update(key: K, c: int)
      requires Lawful(scheme) && 0 < |buckets|
      modifies this
      ensures buckets == Toggled(scheme, old(buckets), key, c)
    {
      ghost var start, goal := buckets, Toggled(scheme, buckets, key, c);
      var list := Buckets(scheme, |buckets|, key);
      ListSweeps(scheme, |buckets|, key, list);
      FirstBucket(scheme, start, key, c, list);
      assert SweepsTo(scheme, |start|, key, list, |list|);
      for i := 0 to |list|
        invariant Partly(start, goal, buckets, Front(|start|, list, i))
      {
        NextBucket(scheme, start, buckets, key, c, list, i);
        buckets := buckets[list[i] := ToggledOnce(scheme, buckets[list[i]], key, c)];
      }
    }

    method Substract(other: Iblt<K>)
      requires other != this && other.scheme == scheme && |other.buckets| == |buckets|
      modifies this
      ensures buckets == Subtracted(scheme, old(buckets), other.buckets)
    {
      for i := 0 to |buckets|
        invariant |buckets| == |old(buckets)|
        invariant forall j :: 0 <= j < |buckets| ==>
                                buckets[j] ==
                                if j < i then Minus(scheme, old(buckets[j]), other.buckets[j]) else old(buckets[j])
      {
        buckets := buckets[i := Minus(scheme, buckets[i], other.buckets[i])];
      }
    }
  }
}
