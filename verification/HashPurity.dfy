/**
 What the test for purity rests on, in terms of the keyed hash itself: a mixture of keys is told from a key if its
 hash differs from the mixture of their hashes. And what the iterator puts into its queue, in terms of the fields of
 buckets.
 */
module HashPurity {
  import opened Wrappers
  import opened Keys
  import opened Algebra
  import opened Iblt
  import opened Peeling
  import opened Listing

  /** The exclusive or of keys, and the exclusive or of their hashes. */
  datatype Mix<K> = Mix(key: K, hash: Word)

  ghost function MixOf<K(!new)>(p: Scheme<K>, s: set<K>): Mix<K> {
    if s == {} then Mix(p.kind.ops.zero, p.words.zero)
    else
      var key :| key in s;
      With(p, MixOf(p, s - {key}), key)
  }

  function With<K>(p: Scheme<K>, m: Mix<K>, key: K): Mix<K> {
    Mix(p.kind.ops.xor(key, m.key), p.words.xor(p.kind.hash(key, p.k0, p.k1), m.hash))
  }

  lemma WithSwaps<K(!new)>(p: Scheme<K>, m: Mix<K>, a: K, b: K)
    requires Lawful(p)
    ensures With(p, With(p, m, a), b) == With(p, With(p, m, b), a)
  {
    SwapInXor(p.kind.ops, a, b, m.key);
    SwapInXor(p.words, p.kind.hash(a, p.k0, p.k1), p.kind.hash(b, p.k0, p.k1), m.hash);
  }

  lemma SwapInXor<T(!new)>(ops: XorOps<T>, a: T, b: T, c: T)
    requires XorLaws(ops)
    ensures ops.xor(a, ops.xor(b, c)) == ops.xor(b, ops.xor(a, c))
  {
    assert Associates(ops, a, b, c) && Associates(ops, b, a, c) && Commutes(ops, a, b);
  }

  /** Any key can be taken first. */
  lemma {:induction false} MixPick<K(!new)>(p: Scheme<K>, s: set<K>, key: K)
    requires Lawful(p) && key in s
    ensures MixOf(p, s) == With(p, MixOf(p, s - {key}), key)
    decreases s
  {
    var first :| first in s && MixOf(p, s) == With(p, MixOf(p, s - {first}), first);
    if first != key {
      MixPick(p, s - {first}, key);
      MixPick(p, s - {key}, first);
      assert s - {first} - {key} == s - {key} - {first};
      WithSwaps(p, MixOf(p, s - {first} - {key}), key, first);
    }
  }

  /** A bucket holds the mixture of its keys. */
  lemma {:induction false} BucketIsMix<K(!new)>(p: Scheme<K>, m: nat, net: Net<K>, s: set<K>, n: nat)
    requires n < m && Lawful(p) && SignedSet(net) && s <= net.Keys
    ensures var b := Sum(p, m, s, net, n); Mix(b.keysum, b.hashsum) == MixOf(p, Members(p, m, s, n))
    decreases s
  {
    if s == {} {
      assert Members(p, m, s, n) == {};
    } else {
      var key :| key in s;
      SumPick(p, m, s, net, n, key);
      BucketIsMix(p, m, net, s - {key}, n);
      if Touches(p, m, key, n) {
        assert Members(p, m, s, n) - {key} == Members(p, m, s - {key}, n);
        MixPick(p, Members(p, m, s, n), key);
      } else {
        assert Members(p, m, s, n) == Members(p, m, s - {key}, n);
        PlusEmpty(p, Sum(p, m, s - {key}, net, n));
      }
    }
  }

  /**
   Wherever two or more keys of the difference meet in a bucket, the hash of their mixture is not the mixture of
   their hashes.
   */
  ghost predicate HashTells<K(!new)>(p: Scheme<K>, m: nat, net: Net<K>) {
    forall s: set<K>, n: nat :: s <= net.Keys && n < m && |Members(p, m, s, n)| >= 2 ==>
                                  var mix := MixOf(p, Members(p, m, s, n)); p.kind.hash(mix.key, p.k0, p.k1) != mix.hash
  }

  /** Then no mixture is taken for a key. */
  lemma HashTellsKeys<K(!new)>(p: Scheme<K>, m: nat, net: Net<K>)
    requires Lawful(p) && SignedSet(net) && HashTells(p, m, net)
    ensures NoFalsePurity(p, m, net)
  {
    forall s: set<K>, n: nat | s <= net.Keys && n < m && LooksPure(p, Sum(p, m, s, net, n))
      ensures exists key :: Sole(p, m, s, n, key)
    {
      BucketIsMix(p, m, net, s, n);
      var here := Members(p, m, s, n);
      assert |here| < 2;
      if here == {} {
        EmptyBucket(p, m, net, s, n);
      } else {
        var key :| key in here;
        OnlyOne(here, key);
        assert Sole(p, m, s, n, key);
      }
    }
  }

  lemma OnlyOne<T>(s: set<T>, x: T)
    requires x in s && |s| < 2
    ensures s == {x}
  {
    assert |s - {x}| == 0;
  }

  /* ---------- what is queued ---------- */

  /**
   The first queue holds exactly the buckets with count 1 or -1 whose hash sum is the keyed hash of their key sum,
   each once and in ascending order.
   */
  lemma QueuedFirst<K(!new)>(p: Scheme<K>, t: seq<Bucket<K>>)
    ensures StrictlyAscending(Start(p, t).queue)
    ensures forall n: nat :: n in Start(p, t).queue <==>
                             && n < |t| && (t[n].count == 1 || t[n].count == -1)
                             && t[n].hashsum == p.kind.hash(t[n].keysum, p.k0, p.k1)
  {
    PureUpToComplete(p, t, |t|);
  }

  /** Taking out a key appends exactly the buckets of the key that are of this kind afterwards. */
  lemma QueuedNext<K(!new)>(p: Scheme<K>, w: Work<K>, key: K, c: int)
    requires 0 < |w.t| && InRange(w)
    ensures var u, more := Taken(p, w, key, c).t, Taken(p, w, key, c).queue[|w.queue|..];
            && Taken(p, w, key, c).queue == w.queue + more && StrictlyAscending(more)
            && forall n: nat :: n in more <==>
                                && n < |u|
                                && (exists i ::
                                      0 <= i < |p.ks| && n == p.slot(p.kind.hash(key, p.ks[i].0, p.ks[i].1), |u|))
                                && (u[n].count == 1 || u[n].count == -1)
                                && u[n].hashsum == p.kind.hash(u[n].keysum, p.k0, p.k1)
  {
    var r := Taken(p, w, key, c);
    var more := PureOf(p, r.t, key, |r.t|);
    assert r.queue[|w.queue|..] == more;
    PureOfComplete(p, r.t, key, |r.t|);
    forall n: nat ensures Touches(p, |r.t|, key, n) <==>
                          exists i :: 0 <= i < |p.ks| && n == p.slot(p.kind.hash(key, p.ks[i].0, p.ks[i].1), |r.t|) {
      PlacesOf(p, |r.t|, key, n);
    }
  }

  /** The buckets of a key are where its hash functions send it. */
  lemma PlacesOf<K>(p: Scheme<K>, m: nat, key: K, n: nat)
    ensures Touches(p, m, key, n) <==>
            exists i :: 0 <= i < |p.ks| && n == p.slot(p.kind.hash(key, p.ks[i].0, p.ks[i].1), m)
  {
    var list := Hashed(p, m, key);
    assert forall i :: 0 <= i < |p.ks| ==> list[i] == p.slot(p.kind.hash(key, p.ks[i].0, p.ks[i].1), m);
    if n in list {
      var i :| 0 <= i < |list| && list[i] == n;
    }
    if i :| 0 <= i < |p.ks| && n == p.slot(p.kind.hash(key, p.ks[i].0, p.ks[i].1), m) {
      assert list[i] == n;
    }
  }

  /** In the tables of the system a key is in the buckets that its hashes name modulo the size of the table. */
  lemma StandardPlaces<K>(kind: KeyKind<K>, k0: Word, k1: Word, ks: seq<(Word, Word)>, m: nat, key: K, n: nat)
    requires 0 < m
    ensures Touches(Standard(kind, k0, k1, ks), m, key, n) <==>
            exists i :: 0 <= i < |ks| && n == (kind.hash(key, ks[i].0, ks[i].1).bits as nat) % m
  {
    var p := Standard(kind, k0, k1, ks);
    PlacesOf(p, m, key, n);
    forall i | 0 <= i < |ks|
      ensures p.slot(p.kind.hash(key, p.ks[i].0, p.ks[i].1), m) == (kind.hash(key, ks[i].0, ks[i].1).bits as nat) % m
    {
      assert p.slot(p.kind.hash(key, p.ks[i].0, p.ks[i].1), m) == Modulo(kind.hash(key, ks[i].0, ks[i].1), m);
    }
  }

  /**
   An insertion (c = 1) or deletion (c = -1) adds the key and its hash by exclusive or and c to the count, in each
   bucket of the key and nowhere else.
   */
  lemma ToggledFields<K>(p: Scheme<K>, t: seq<Bucket<K>>, key: K, c: int, n: nat)
    requires n < |t|
    ensures var here := exists i :: 0 <= i < |p.ks| && n == p.slot(p.kind.hash(key, p.ks[i].0, p.ks[i].1), |t|);
            var b := Toggled(p, t, key, c)[n];
            && b.count == (if here then t[n].count + c else t[n].count)
            && b.keysum == (if here then p.kind.ops.xor(t[n].keysum, key) else t[n].keysum)
            && b.hashsum == (if here then p.words.xor(t[n].hashsum, p.kind.hash(key, p.k0, p.k1)) else t[n].hashsum)
  {
    PlacesOf(p, |t|, key, n);
  }
}
