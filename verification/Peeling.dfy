/**
 Why peeling works. A bucket that holds exactly one of the remaining keys shows that key,
 and taking the key out leaves the encoding of the keys that still remain. Peeling in any
 order ends at the same remainder: the greatest set of keys in which no bucket holds exactly one.
 */
module Peeling {
  import opened Wrappers
  import opened Algebra
  import opened Iblt

  /** The keys of `s` that are hashed to bucket n. */
  function Members<K>(p: Scheme<K>, m: nat, s: set<K>, n: nat): set<K>
    requires 0 < m
  {
    set key | key in s && Touches(p, m, key, n)
  }

  ghost predicate Sole<K>(p: Scheme<K>, m: nat, s: set<K>, n: nat, key: K)
    requires 0 < m
  {
    Members(p, m, s, n) == {key}
  }

  /** Bucket n holds no key of `s` or just one. */
  ghost predicate AtMostOne<K>(p: Scheme<K>, m: nat, s: set<K>, n: nat)
    requires 0 < m
  {
    forall a, b :: a in Members(p, m, s, n) && b in Members(p, m, s, n) ==> a == b
  }

  /** The test the iterator applies to a bucket. */
  predicate LooksPure<K>(p: Scheme<K>, b: Bucket<K>) {
    (b.count == 1 || b.count == -1) && b.hashsum == KeyHash(p, b.keysum)
  }

  /** Every key is on one side of the difference, and there once. */
  ghost predicate SignedSet<K>(net: Net<K>) {
    forall key :: key in net ==> net[key] == 1 || net[key] == -1
  }

  /**
   The hash tells keys from mixtures: a bucket that looks pure after any part of the
   difference has been taken out really holds a single key.
   */
  ghost predicate NoFalsePurity<K(!new)>(p: Scheme<K>, m: nat, net: Net<K>) {
    forall s: set<K>, n: nat :: s <= net.Keys && n < m && LooksPure(p, Sum(p, m, s, net, n)) ==>
                                  exists key :: Sole(p, m, s, n, key)
  }

  /* ---------- what buckets show ---------- */

  lemma EmptyBucket<K(!new)>(p: Scheme<K>, m: nat, net: Net<K>, s: set<K>, n: nat)
    requires n < m && Lawful(p) && Members(p, m, s, n) == {}
    ensures Sum(p, m, s, net, n) == Empty(p)
  {
    forall key | key in s ensures Share(p, m, key, Times(net, key), n) == Empty(p) {
      assert key !in Members(p, m, s, n);
    }
    SumIgnores(p, m, s, {}, net, n);
  }

  /** A bucket with a single key shows the key, its hash and its sign, so it looks pure. */
  lemma SoleBucket<K(!new)>(p: Scheme<K>, m: nat, net: Net<K>, s: set<K>, n: nat, key: K)
    requires n < m && Lawful(p) && SignedSet(net) && s <= net.Keys && Sole(p, m, s, n, key)
    ensures Sum(p, m, s, net, n) == Bucket(key, KeyHash(p, key), net[key])
    ensures LooksPure(p, Sum(p, m, s, net, n))
  {
    assert key in Members(p, m, s, n);
    forall other | other in s - {key} ensures Share(p, m, other, Times(net, other), n) == Empty(p) {
      assert other !in Members(p, m, s, n);
    }
    SumIgnores(p, m, s, {key}, net, n);
    SumPick(p, m, {key}, net, n, key);
    assert {key} - {key} == {};
    PlusEmpty(p, Share(p, m, key, net[key], n));
  }

  /** Under the hash hypothesis a bucket looks pure exactly when it holds a single key. */
  lemma PureMeansSole<K(!new)>(p: Scheme<K>, m: nat, net: Net<K>, s: set<K>, n: nat)
    requires n < m && Lawful(p) && SignedSet(net) && NoFalsePurity(p, m, net) && s <= net.Keys
    ensures LooksPure(p, Sum(p, m, s, net, n)) <==> exists key :: Sole(p, m, s, n, key)
  {
    if key :| Sole(p, m, s, n, key) {
      SoleBucket(p, m, net, s, n, key);
    }
  }

  /** Deleting a key with its sign leaves the encoding of the others. */
  lemma TakeOut<K(!new)>(p: Scheme<K>, m: nat, net: Net<K>, s: set<K>, key: K)
    requires Lawful(p) && SignedSet(net) && s <= net.Keys && key in s
    ensures Toggled(p, EncodeOn(p, m, s, net), key, -net[key]) == EncodeOn(p, m, s - {key}, net)
  {
    forall n | 0 <= n < m
      ensures Toggled(p, EncodeOn(p, m, s, net), key, -net[key])[n] == EncodeOn(p, m, s - {key}, net)[n]
    {
      TakeOutAt(p, m, net, s, key, n);
    }
  }

  lemma TakeOutAt<K(!new)>(p: Scheme<K>, m: nat, net: Net<K>, s: set<K>, key: K, n: nat)
    requires n < m && Lawful(p) && SignedSet(net) && s <= net.Keys && key in s
    ensures Sum(p, m, s - {key}, net, n) ==
            if Touches(p, m, key, n) then ToggledOnce(p, Sum(p, m, s, net, n), key, -net[key]) else Sum(p, m, s, net, n)
  {
    var share, rest := Share(p, m, key, net[key], n), Sum(p, m, s - {key}, net, n);
    SumPick(p, m, s, net, n, key);
    if Touches(p, m, key, n) {
      MinusUndoesPlus(p, share, rest);
    } else {
      PlusEmpty(p, rest);
    }
  }

  /* ---------- the invariant of the peeling queue ---------- */

  /** No bucket holds exactly one key of the set, so peeling cannot start on it. */
  ghost predicate IsCore<K(!new)>(p: Scheme<K>, m: nat, s: set<K>) {
    forall n: nat, key :: n < m ==> !Sole(p, m, s, n, key)
  }

  /** No key of an unpeelable set is missing. */
  ghost predicate HoldsCores<K(!new)>(p: Scheme<K>, m: nat, from: set<K>, left: set<K>) {
    forall c :: c <= from && IsCore(p, m, c) ==> c <= left
  }

  /** Every bucket with a single key waits in the queue. */
  ghost predicate Waiting<K(!new)>(p: Scheme<K>, m: nat, left: set<K>, queue: seq<nat>) {
    forall n: nat, key :: n < m && Sole(p, m, left, n, key) ==> n in queue
  }

  /** A bucket that was ever queued holds at most one key. */
  ghost predicate Settled<K(!new)>(p: Scheme<K>, m: nat, left: set<K>, entered: set<nat>) {
    forall n :: n in entered ==> n < m && AtMostOne(p, m, left, n)
  }

  /** The queue holds buckets that entered it, each once. */
  ghost predicate QueueOf(queue: seq<nat>, entered: set<nat>) {
    && (forall i :: 0 <= i < |queue| ==> queue[i] in entered)
    && (forall i, j :: 0 <= i < j < |queue| ==> queue[i] != queue[j])
  }

  /** What the iterator keeps between two steps, where `left` are the keys not yet listed. */
  ghost predicate Peels<K(!new)>(p: Scheme<K>, net: Net<K>, t: seq<Bucket<K>>, left: set<K>,
                                 queue: seq<nat>, entered: set<nat>)
  {
    && left <= net.Keys
    && t == EncodeOn(p, |t|, left, net)
    && Settled(p, |t|, left, entered)
    && QueueOf(queue, entered)
    && Waiting(p, |t|, left, queue)
    && HoldsCores(p, |t|, net.Keys, left)
  }

  /** A queued bucket whose count is not one in absolute value has lost its key already. */
  lemma DropStale<K(!new)>(p: Scheme<K>, net: Net<K>, t: seq<Bucket<K>>, left: set<K>, queue: seq<nat>,
                           entered: set<nat>)
    requires Lawful(p) && SignedSet(net) && queue != [] && Peels(p, net, t, left, queue, entered)
    requires queue[0] < |t| && t[queue[0]].count != 1 && t[queue[0]].count != -1
    ensures Peels(p, net, t, left, queue[1..], entered)
  {
    assert queue == [queue[0]] + queue[1..];
    forall n: nat, key | n < |t| && Sole(p, |t|, left, n, key) ensures n in queue[1..] {
      SoleBucket(p, |t|, net, left, n, key);
    }
  }

  /** A queued bucket with count one in absolute value shows the one key it holds, with its sign. */
  lemma QueuedShowsKey<K(!new)>(p: Scheme<K>, net: Net<K>, t: seq<Bucket<K>>, left: set<K>, queue: seq<nat>,
                                entered: set<nat>)
    requires Lawful(p) && SignedSet(net) && queue != [] && Peels(p, net, t, left, queue, entered)
    requires queue[0] < |t| && (t[queue[0]].count == 1 || t[queue[0]].count == -1)
    ensures Sole(p, |t|, left, queue[0], t[queue[0]].keysum)
    ensures t[queue[0]].keysum in left && net[t[queue[0]].keysum] == t[queue[0]].count
  {
    var i := queue[0];
    var here := Members(p, |t|, left, i);
    if here == {} {
      EmptyBucket(p, |t|, net, left, i);
      assert false;
    } else {
      var key :| key in here;
      assert here == {key};
      SoleBucket(p, |t|, net, left, i, key);
    }
  }

  /** The buckets of a key among the first n that look pure, in ascending order. */
  ghost function PureOf<K>(p: Scheme<K>, t: seq<Bucket<K>>, key: K, n: nat): (r: seq<nat>)
    requires n <= |t|
    ensures forall j :: 0 <= j < |r| ==> r[j] < n
  {
    if n == 0 then []
    else if Touches(p, |t|, key, n - 1) && LooksPure(p, t[n - 1]) then PureOf(p, t, key, n - 1) + [n - 1]
    else PureOf(p, t, key, n - 1)
  }

  lemma {:induction false} PureOfComplete<K>(p: Scheme<K>, t: seq<Bucket<K>>, key: K, i: nat)
    requires i <= |t|
    ensures StrictlyAscending(PureOf(p, t, key, i))
    ensures forall n: nat :: n in PureOf(p, t, key, i) <==> n < i && Touches(p, |t|, key, n) && LooksPure(p, t[n])
  {
    if i > 0 {
      PureOfComplete(p, t, key, i - 1);
    }
  }

  /** Buckets that are none of the key's do not count. */
  lemma {:induction false} PureOfSkips<K>(p: Scheme<K>, t: seq<Bucket<K>>, key: K, i: nat, j: nat)
    requires i <= j <= |t| && forall n: nat :: i <= n < j ==> !Touches(p, |t|, key, n)
    ensures PureOf(p, t, key, j) == PureOf(p, t, key, i)
  {
    if i < j {
      PureOfSkips(p, t, key, i, j - 1);
    }
  }

  /** Going over the buckets of the key is going over all buckets up to the next one of the key. */
  lemma PureOfNext<K(!new)>(p: Scheme<K>, t: seq<Bucket<K>>, key: K, list: seq<nat>, i: nat)
    requires 0 < |t| && Sweeps(p, |t|, key, list) && i < |list|
    ensures list[i] < |t| && Front(|t|, list, i + 1) <= |t|
    ensures PureOf(p, t, key, Front(|t|, list, i + 1)) ==
            PureOf(p, t, key, list[i]) + (if LooksPure(p, t[list[i]]) then [list[i]] else [])
  {
    assert SweepsTo(p, |t|, key, list, i) && SweepsTo(p, |t|, key, list, i + 1);
    PureOfSkips(p, t, key, list[i] + 1, Front(|t|, list, i + 1));
  }

  datatype Work<K> = Work(t: seq<Bucket<K>>, queue: seq<nat>)

  /** One bucket of a key is updated and queued if it looks pure afterwards. */
  function Visit<K>(p: Scheme<K>, w: Work<K>, key: K, c: int, n: nat): (r: Work<K>)
    requires n < |w.t|
    ensures |r.t| == |w.t|
  {
    var b := ToggledOnce(p, w.t[n], key, c);
    Work(w.t[n := b], if LooksPure(p, b) then w.queue + [n] else w.queue)
  }

  /** The first i buckets of a list are visited one after the other. */
  function VisitAll<K>(p: Scheme<K>, w: Work<K>, key: K, c: int, list: seq<nat>, i: nat): (r: Work<K>)
    requires i <= |list| && forall j :: 0 <= j < |list| ==> list[j] < |w.t|
    ensures |r.t| == |w.t|
  {
    if i == 0 then w else Visit(p, VisitAll(p, w, key, c, list, i - 1), key, c, list[i - 1])
  }

  /** Visiting bucket after bucket amounts to one change of the table. */
  lemma {:induction false} VisitedTable<K(!new)>(p: Scheme<K>, w: Work<K>, key: K, c: int, list: seq<nat>, i: nat)
    requires 0 < |w.t| && Sweeps(p, |w.t|, key, list) && i <= |list|
    ensures Partly(w.t, Toggled(p, w.t, key, c), VisitAll(p, w, key, c, list, i).t, Front(|w.t|, list, i))
  {
    if i == 0 {
      FirstBucket(p, w.t, key, c, list);
    } else {
      VisitedTable(p, w, key, c, list, i - 1);
      NextBucket(p, w.t, VisitAll(p, w, key, c, list, i - 1).t, key, c, list, i - 1);
    }
  }

  /** The queue grows by the buckets that have become pure. */
  lemma {:induction false} VisitedQueue<K(!new)>(p: Scheme<K>, w: Work<K>, key: K, c: int, list: seq<nat>, i: nat)
    requires 0 < |w.t| && Sweeps(p, |w.t|, key, list) && i <= |list|
    ensures Front(|w.t|, list, i) <= |w.t|
    ensures VisitAll(p, w, key, c, list, i).queue ==
            w.queue + PureOf(p, Toggled(p, w.t, key, c), key, Front(|w.t|, list, i))
  {
    var goal := Toggled(p, w.t, key, c);
    if i == 0 {
      assert SweepsTo(p, |w.t|, key, list, 0);
      PureOfSkips(p, goal, key, 0, Front(|w.t|, list, 0));
    } else {
      VisitedQueue(p, w, key, c, list, i - 1);
      VisitedBucket(p, w, key, c, list, i - 1);
      PureOfNext(p, goal, key, list, i - 1);
      VisitQueues(p, VisitAll(p, w, key, c, list, i - 1), key, c, list[i - 1], w.queue,
                  PureOf(p, goal, key, list[i - 1]));
    }
  }

  lemma VisitedBucket<K(!new)>(p: Scheme<K>, w: Work<K>, key: K, c: int, list: seq<nat>, i: nat)
    requires 0 < |w.t| && Sweeps(p, |w.t|, key, list) && i < |list|
    ensures ToggledOnce(p, VisitAll(p, w, key, c, list, i).t[list[i]], key, c) == Toggled(p, w.t, key, c)[list[i]]
  {
    VisitedTable(p, w, key, c, list, i);
    NextBucket(p, w.t, VisitAll(p, w, key, c, list, i).t, key, c, list, i);
  }

  lemma VisitQueues<K>(p: Scheme<K>, v: Work<K>, key: K, c: int, n: nat, queue: seq<nat>, pure: seq<nat>)
    requires n < |v.t| && v.queue == queue + pure
    ensures Visit(p, v, key, c, n).queue ==
            queue + (pure + (if LooksPure(p, ToggledOnce(p, v.t[n], key, c)) then [n] else []))
  {
  }

  lemma VisitAllDone<K(!new)>(p: Scheme<K>, w: Work<K>, key: K, c: int, list: seq<nat>)
    requires 0 < |w.t| && Sweeps(p, |w.t|, key, list)
    ensures var goal := Toggled(p, w.t, key, c);
            VisitAll(p, w, key, c, list, |list|) == Work(goal, w.queue + PureOf(p, goal, key, |goal|))
  {
    VisitedTable(p, w, key, c, list, |list|);
    VisitedQueue(p, w, key, c, list, |list|);
  }

  /** Taking out the key a queued bucket shows, and queueing what becomes pure, keeps the invariant. */
  lemma PeelStep<K(!new)>(p: Scheme<K>, net: Net<K>, t: seq<Bucket<K>>, left: set<K>, queue: seq<nat>,
                          entered: set<nat>,
                          key: K, u: seq<Bucket<K>>, novel: seq<nat>)
    requires Lawful(p) && SignedSet(net) && NoFalsePurity(p, |t|, net)
    requires queue != [] && Peels(p, net, t, left, queue, entered)
    requires queue[0] < |t| && Sole(p, |t|, left, queue[0], key)
    requires u == Toggled(p, t, key, -Times(net, key))
    requires StrictlyAscending(novel)
    requires forall n: nat :: n in novel <==> n < |t| && Touches(p, |t|, key, n) && LooksPure(p, u[n])
    ensures Peels(p, net, u, left - {key}, queue[1..] + novel, entered + AllEntries(novel))
    ensures AllEntries(novel) !! entered
  {
    var m := |t|;
    assert key in Members(p, m, left, queue[0]);
    TakeOut(p, m, net, left, key);
    NovelSettles(p, m, net, left, entered, key, novel);
    QueueGrows(queue, entered, novel);
    NovelWaits(p, m, net, left, queue, key, novel);
    CoresStay(p, m, net.Keys, left, queue[0], key);
  }

  lemma NovelSettles<K(!new)>(p: Scheme<K>, m: nat, net: Net<K>, left: set<K>, entered: set<nat>, key: K,
                              novel: seq<nat>)
    requires Lawful(p) && SignedSet(net) && NoFalsePurity(p, m, net) && left <= net.Keys && key in left
    requires forall n :: n in novel ==> n < m && Touches(p, m, key, n) && LooksPure(p, Sum(p, m, left - {key}, net, n))
    requires Settled(p, m, left, entered)
    ensures Settled(p, m, left - {key}, entered + AllEntries(novel))
    ensures AllEntries(novel) !! entered
  {
    EntriesAre(novel);
    forall n | n in novel ensures AtMostOne(p, m, left - {key}, n) && n !in entered {
      FreshBucket(p, m, net, left, key, n);
    }
    forall n | n in entered ensures AtMostOne(p, m, left - {key}, n) {
      assert Members(p, m, left - {key}, n) <= Members(p, m, left, n);
    }
  }

  lemma QueueGrows(queue: seq<nat>, entered: set<nat>, novel: seq<nat>)
    requires queue != [] && QueueOf(queue, entered) && StrictlyAscending(novel) && AllEntries(novel) !! entered
    ensures QueueOf(queue[1..] + novel, entered + AllEntries(novel))
  {
    EntriesAre(novel);
  }

  lemma NovelWaits<K(!new)>(p: Scheme<K>, m: nat, net: Net<K>, left: set<K>, queue: seq<nat>, key: K, novel: seq<nat>)
    requires Lawful(p) && SignedSet(net) && left <= net.Keys && key in left
    requires queue != [] && queue[0] < m && Sole(p, m, left, queue[0], key) && Waiting(p, m, left, queue)
    requires forall n: nat :: n < m && Touches(p, m, key, n) && LooksPure(p, Sum(p, m, left - {key}, net, n)) ==>
                                n in novel
    ensures Waiting(p, m, left - {key}, queue[1..] + novel)
  {
    var rest := left - {key};
    assert queue == [queue[0]] + queue[1..];
    forall n: nat, k | n < m && Sole(p, m, rest, n, k) ensures n in queue[1..] + novel {
      SoleBucket(p, m, net, rest, n, k);
      assert k in Members(p, m, rest, n);
      if !Touches(p, m, key, n) {
        assert Members(p, m, rest, n) == Members(p, m, left, n);
        assert Sole(p, m, left, n, k);
        assert k in Members(p, m, left, n);
      }
    }
  }

  lemma SoleInSubset<K(!new)>(p: Scheme<K>, m: nat, s: set<K>, c: set<K>, n: nat, key: K)
    requires n < m && c <= s && key in c && Sole(p, m, s, n, key)
    ensures Sole(p, m, c, n, key)
  {
  }

  lemma CoresStay<K(!new)>(p: Scheme<K>, m: nat, from: set<K>, left: set<K>, n: nat, key: K)
    requires n < m && HoldsCores(p, m, from, left) && Sole(p, m, left, n, key)
    ensures HoldsCores(p, m, from, left - {key})
  {
    forall c | c <= from && IsCore(p, m, c) ensures c <= left - {key} {
      if key in c {
        SoleInSubset(p, m, left, c, n, key);
      }
    }
  }

  /** A bucket that becomes pure by taking out one of its keys held two keys before. */
  lemma FreshBucket<K(!new)>(p: Scheme<K>, m: nat, net: Net<K>, left: set<K>, key: K, n: nat)
    requires n < m && Lawful(p) && SignedSet(net) && NoFalsePurity(p, m, net) && left <= net.Keys
    requires key in left && Touches(p, m, key, n)
    requires LooksPure(p, Sum(p, m, left - {key}, net, n))
    ensures AtMostOne(p, m, left - {key}, n) && !AtMostOne(p, m, left, n)
  {
    PureMeansSole(p, m, net, left - {key}, n);
    var other :| Sole(p, m, left - {key}, n, other);
    assert other in Members(p, m, left - {key}, n);
    assert other in Members(p, m, left, n) && key in Members(p, m, left, n) && other != key;
  }

  /* ---------- where peeling ends ---------- */

  ghost predicate InSomeCore<K(!new)>(p: Scheme<K>, m: nat, s: set<K>, key: K) {
    exists c :: c <= s && IsCore(p, m, c) && key in c
  }

  /** The keys of all unpeelable subsets together. */
  ghost function Core<K(!new)>(p: Scheme<K>, m: nat, s: set<K>): set<K> {
    set key | key in s && InSomeCore(p, m, s, key)
  }

  /** The remainder of a drained queue is the greatest unpeelable subset of the difference. */
  lemma DrainedIsCore<K(!new)>(p: Scheme<K>, net: Net<K>, t: seq<Bucket<K>>, left: set<K>, entered: set<nat>)
    requires Peels(p, net, t, left, [], entered)
    ensures IsCore(p, |t|, left) && left == Core(p, |t|, net.Keys)
  {
  }

  /** One key after another, each the only one in some bucket when its turn comes. */
  ghost predicate PeelOrder<K(!new)>(p: Scheme<K>, m: nat, from: set<K>, keys: seq<K>)
    requires 0 < m
  {
    keys != [] ==>
      && (exists n: nat :: n < m && Sole(p, m, from, n, keys[0]))
      && PeelOrder(p, m, from - {keys[0]}, keys[1..])
  }

  /** Whatever the order, peeling until nothing is left to peel takes out exactly the keys outside the core. */
  lemma {:induction false} AnyOrderSameRemainder<K(!new)>(p: Scheme<K>, m: nat, from: set<K>, keys: seq<K>)
    requires 0 < m && PeelOrder(p, m, from, keys) && IsCore(p, m, from - AllEntries(keys))
    ensures from - AllEntries(keys) == Core(p, m, from)
  {
    var rest := from - AllEntries(keys);
    forall c | c <= from && IsCore(p, m, c) ensures c <= rest {
      CoreSurvives(p, m, from, keys, c);
    }
    forall key ensures key in rest <==> key in Core(p, m, from) {
      if key in rest {
        assert InSomeCore(p, m, from, key);
      }
    }
  }

  lemma {:induction false} CoreSurvives<K(!new)>(p: Scheme<K>, m: nat, from: set<K>, keys: seq<K>, c: set<K>)
    requires 0 < m && PeelOrder(p, m, from, keys) && c <= from && IsCore(p, m, c)
    ensures c <= from - AllEntries(keys)
    decreases |keys|
  {
    if keys != [] {
      var n: nat :| n < m && Sole(p, m, from, n, keys[0]);
      if keys[0] in c {
        SoleInSubset(p, m, from, c, n, keys[0]);
      }
      CoreSurvives(p, m, from - {keys[0]}, keys[1..], c);
      assert keys == [keys[0]] + keys[1..];
      EntriesAre(keys);
      EntriesAre(keys[1..]);
    }
  }
}
