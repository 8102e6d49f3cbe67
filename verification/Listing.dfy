/**
 What the iterator computes, on values: one bucket taken from the queue, one key looked for, and a whole
 listing. On the table of a difference the listing is exact, and it ends. On any other table it is defined all the same.
 */
module Listing {
  import opened Wrappers
  import opened Algebra
  import opened Iblt
  import opened Peeling

  datatype Entry<K> = Inserted(key: K) | Deleted(key: K)

  function EntrySign<K>(e: Entry<K>): int {
    if e.Inserted? then 1 else -1
  }

  predicate AllCountsZero<K>(t: seq<Bucket<K>>) {
    forall n :: 0 <= n < |t| ==> t[n].count == 0
  }

  /* ---------- the steps as functions ---------- */

  /** The queue names buckets of the table. */
  ghost predicate InRange<K>(w: Work<K>) {
    forall i :: 0 <= i < |w.queue| ==> w.queue[i] < |w.t|
  }

  /** The buckets among the first i that look pure. */
  ghost function PureUpTo<K>(p: Scheme<K>, t: seq<Bucket<K>>, i: nat): (q: seq<nat>)
    requires i <= |t|
    ensures forall j :: 0 <= j < |q| ==> q[j] < i
  {
    if i == 0 then []
    else if LooksPure(p, t[i - 1]) then PureUpTo(p, t, i - 1) + [i - 1]
    else PureUpTo(p, t, i - 1)
  }

  ghost function Start<K>(p: Scheme<K>, t: seq<Bucket<K>>): (w: Work<K>)
    ensures InRange(w) && w.t == t
  {
    Work(t, PureUpTo(p, t, |t|))
  }

  datatype Popped<K> = Popped(work: Work<K>, entry: Option<Entry<K>>)

  /** The work after a key with count c was taken out. */
  ghost function Taken<K>(p: Scheme<K>, w: Work<K>, key: K, c: int): (r: Work<K>)
    requires 0 < |w.t| && InRange(w)
    ensures InRange(r) && |r.t| == |w.t|
  {
    var u := Toggled(p, w.t, key, -c);
    Work(u, w.queue + PureOf(p, u, key, |u|))
  }

  /** One bucket is taken from the queue; its key is listed if the bucket still has one. */
  ghost function PopOnce<K>(p: Scheme<K>, w: Work<K>): (r: Popped<K>)
    requires InRange(w) && w.queue != []
    ensures InRange(r.work) && |r.work.t| == |w.t|
    ensures r.entry.None? ==> r.work == Work(w.t, w.queue[1..])
  {
    var b, rest := w.t[w.queue[0]], Work(w.t, w.queue[1..]);
    if b.count == 1 then Popped(Taken(p, rest, b.keysum, 1), Some(Inserted(b.keysum)))
    else if b.count == -1 then Popped(Taken(p, rest, b.keysum, -1), Some(Deleted(b.keysum)))
    else Popped(rest, None)
  }

  datatype Sought<K> = Sought(work: Work<K>, entry: Option<Entry<K>>, pops: nat)

  /** Buckets are taken from the queue until one shows a key. */
  ghost function Seek<K>(p: Scheme<K>, w: Work<K>): (r: Sought<K>)
    requires InRange(w)
    ensures InRange(r.work) && |r.work.t| == |w.t| && (r.entry.None? ==> r.work == Work(w.t, []))
    decreases |w.queue|
  {
    if w.queue == [] then Sought(w, None, 0)
    else
      var o := PopOnce(p, w);
      if o.entry.Some? then Sought(o.work, o.entry, 1)
      else
        var s := Seek(p, o.work);
        s.(pops := s.pops + 1)
  }

  datatype Progress<K> = Progress(work: Work<K>, entries: seq<Entry<K>>, pops: nat)

  /** Keys are looked for n times. */
  ghost function Listed<K>(p: Scheme<K>, t: seq<Bucket<K>>, n: nat): (r: Progress<K>)
    ensures InRange(r.work) && |r.work.t| == |t| && |r.entries| <= n
  {
    if n == 0 then Progress(Start(p, t), [], 0)
    else
      var l := Listed(p, t, n - 1);
      var s := Seek(p, l.work);
      Progress(s.work, if s.entry.Some? then l.entries + [s.entry.value] else l.entries, l.pops + s.pops)
  }

  /** After n keys none is found. */
  ghost predicate EndsAt<K>(p: Scheme<K>, t: seq<Bucket<K>>, n: nat) {
    Seek(p, Listed(p, t, n).work).entry.None?
  }

  /** The iteration comes to an end. */
  ghost predicate Ends<K>(p: Scheme<K>, t: seq<Bucket<K>>) {
    exists n: nat :: EndsAt(p, t, n)
  }

  /** The iteration of a table lists these entries, and ends without an error or with one. */
  ghost predicate Lists<K>(p: Scheme<K>, t: seq<Bucket<K>>, entries: seq<Entry<K>>, clean: bool) {
    && Listed(p, t, |entries|).entries == entries && EndsAt(p, t, |entries|)
    && (clean <==> AllCountsZero(Listed(p, t, |entries|).work.t))
  }

  /* ---------- what was listed ---------- */

  function KeysOf<K>(entries: seq<Entry<K>>): set<K> {
    set i | 0 <= i < |entries| :: entries[i].key
  }

  ghost predicate ListsOnce<K>(entries: seq<Entry<K>>) {
    forall i, j :: 0 <= i < j < |entries| ==> entries[i].key != entries[j].key
  }

  ghost predicate SignsMatch<K>(entries: seq<Entry<K>>, net: Net<K>) {
    forall i :: 0 <= i < |entries| ==> entries[i].key in net && net[entries[i].key] == EntrySign(entries[i])
  }

  /** The entries are the keys of the difference that are no longer left. */
  ghost predicate ListedSoFar<K>(entries: seq<Entry<K>>, net: Net<K>, left: set<K>) {
    ListsOnce(entries) && SignsMatch(entries, net) && left <= net.Keys && KeysOf(entries) == net.Keys - left
  }

  lemma ListOneMore<K>(entries: seq<Entry<K>>, e: Entry<K>, net: Net<K>, left: set<K>)
    requires ListedSoFar(entries, net, left) && e.key in left && net[e.key] == EntrySign(e)
    ensures ListedSoFar(entries + [e], net, left - {e.key})
  {
    KeysOfAppend(entries, e);
    assert forall i :: 0 <= i < |entries| ==> entries[i].key in KeysOf(entries);
  }

  lemma KeysOfAppend<K>(entries: seq<Entry<K>>, e: Entry<K>)
    ensures KeysOf(entries + [e]) == KeysOf(entries) + {e.key}
  {
    var more := entries + [e];
    assert more[|entries|] == e;
    forall key | key in KeysOf(entries) ensures key in KeysOf(more) {
      var i :| 0 <= i < |entries| && entries[i].key == key;
      assert more[i] == entries[i];
    }
  }

  /* ---------- every step is sound on the table of a difference ---------- */

  /** The table encodes the difference `net`, and the hash tells its keys from mixtures. */
  ghost predicate Listable<K(!new)>(p: Scheme<K>, t: seq<Bucket<K>>, net: Net<K>) {
    Lawful(p) && SignedSet(net) && NoFalsePurity(p, |t|, net) && t == Encode(p, |t|, net)
  }

  /** The table encodes what is left of the difference, and no bucket is queued twice. */
  ghost predicate PeelsSoundly<K(!new)>(p: Scheme<K>, net: Net<K>, w: Work<K>, left: set<K>, entered: set<nat>,
                                        pops: nat) {
    && Lawful(p) && SignedSet(net) && NoFalsePurity(p, |w.t|, net)
    && Peels(p, net, w.t, left, w.queue, entered)
    && pops + |w.queue| == |entered|
  }

  lemma {:induction false} CountDistinct(list: seq<nat>)
    requires StrictlyAscending(list)
    ensures |AllEntries(list)| == |list|
  {
    if list != [] {
      var front, x := list[..|list| - 1], list[|list| - 1];
      CountDistinct(front);
      assert list == front + [x];
      EntriesAre(list);
      EntriesAre(front);
      assert AllEntries(list) == AllEntries(front) + {x};
    }
  }

  lemma CardinalityGrows(s: set<nat>, novel: seq<nat>)
    requires StrictlyAscending(novel) && AllEntries(novel) !! s
    ensures |s + AllEntries(novel)| == |s| + |novel|
  {
    CountDistinct(novel);
  }

  lemma {:induction false} PureUpToComplete<K>(p: Scheme<K>, t: seq<Bucket<K>>, i: nat)
    requires i <= |t|
    ensures StrictlyAscending(PureUpTo(p, t, i))
    ensures forall n: nat :: n in PureUpTo(p, t, i) <==> n < i && LooksPure(p, t[n])
  {
    if i > 0 {
      PureUpToComplete(p, t, i - 1);
    }
  }

  lemma StartIsSound<K(!new)>(p: Scheme<K>, t: seq<Bucket<K>>, net: Net<K>)
    requires Listable(p, t, net)
    ensures PeelsSoundly(p, net, Start(p, t), net.Keys, AllEntries(Start(p, t).queue), 0)
  {
    var q := Start(p, t).queue;
    EntriesAre(q);
    PureUpToComplete(p, t, |t|);
    forall n | n in q ensures AtMostOne(p, |t|, net.Keys, n) {
      PureMeansSole(p, |t|, net, net.Keys, n);
    }
    forall n: nat, key | n < |t| && Sole(p, |t|, net.Keys, n, key) ensures n in q {
      SoleBucket(p, |t|, net, net.Keys, n, key);
    }
    CountDistinct(q);
  }

  /** Taking out the key of a queued bucket keeps the table sound, and queues no bucket a second time. */
  lemma TakenIsSound<K(!new)>(p: Scheme<K>, net: Net<K>, w: Work<K>, left: set<K>, entered: set<nat>, pops: nat,
                              key: K, u: seq<Bucket<K>>)
    returns (entered': set<nat>)
    requires PeelsSoundly(p, net, w, left, entered, pops) && w.queue != [] && w.queue[0] < |w.t| && key in left
    requires Sole(p, |w.t|, left, w.queue[0], key) && u == Toggled(p, w.t, key, -Times(net, key))
    ensures PeelsSoundly(p, net, Work(u, w.queue[1..] + PureOf(p, u, key, |u|)), left - {key}, entered', pops + 1)
  {
    var novel := PureOf(p, u, key, |u|);
    PureOfComplete(p, u, key, |u|);
    PeelStep(p, net, w.t, left, w.queue, entered, key, u, novel);
    CardinalityGrows(entered, novel);
    entered' := entered + AllEntries(novel);
  }

  /** Taking a bucket from the queue lists a key that was left, with its sign, or drops a bucket without a key. */
  lemma PopIsSound<K(!new)>(p: Scheme<K>, net: Net<K>, w: Work<K>, left: set<K>, entered: set<nat>, pops: nat)
    returns (left': set<K>, entered': set<nat>)
    requires PeelsSoundly(p, net, w, left, entered, pops) && InRange(w) && w.queue != []
    ensures var o := PopOnce(p, w);
            && PeelsSoundly(p, net, o.work, left', entered', pops + 1)
            && (if o.entry.Some? then FoundIn(net, left, o.entry.value) &&
                                      left' == left - {o.entry.value.key} else left' == left)
  {
    var b := w.t[w.queue[0]];
    if b.count == 1 || b.count == -1 {
      QueuedShowsKey(p, net, w.t, left, w.queue, entered);
      entered' := TakenIsSound(p, net, w, left, entered, pops, b.keysum, Toggled(p, w.t, b.keysum, -b.count));
      left' := left - {b.keysum};
    } else {
      DropStale(p, net, w.t, left, w.queue, entered);
      left', entered' := left, entered;
    }
  }

  /** The entry shows a key that is left, on its side of the difference. */
  ghost predicate FoundIn<K>(net: Net<K>, left: set<K>, e: Entry<K>) {
    e.key in left && e.key in net && net[e.key] == EntrySign(e)
  }

  lemma {:induction false} SeekIsSound<K(!new)>(p: Scheme<K>, net: Net<K>, w: Work<K>, left: set<K>, entered: set<nat>,
                                                pops: nat)
    returns (left': set<K>, entered': set<nat>)
    requires PeelsSoundly(p, net, w, left, entered, pops) && InRange(w)
    ensures var s := Seek(p, w);
            && PeelsSoundly(p, net, s.work, left', entered', pops + s.pops)
            && (if s.entry.Some? then FoundIn(net, left, s.entry.value) &&
                                      left' == left - {s.entry.value.key} else left' == left)
    decreases |w.queue|
  {
    left', entered' := left, entered;
    if w.queue != [] {
      left', entered' := PopIsSound(p, net, w, left, entered, pops);
      if PopOnce(p, w).entry.None? {
        left', entered' := SeekIsSound(p, net, PopOnce(p, w).work, left', entered', pops + 1);
      }
    }
  }

  /**
   After any number of keys the table is exactly the encoding of those not yet listed, and each listed key
   was listed once and on its side.
   */
  lemma {:induction false} ListedIsSound<K(!new)>(p: Scheme<K>, t: seq<Bucket<K>>, net: Net<K>, n: nat)
    returns (left: set<K>, entered: set<nat>)
    requires Listable(p, t, net)
    ensures var l := Listed(p, t, n);
            PeelsSoundly(p, net, l.work, left, entered, l.pops) && ListedSoFar(l.entries, net, left)
  {
    if n == 0 {
      StartIsSound(p, t, net);
      left, entered := net.Keys, AllEntries(Start(p, t).queue);
    } else {
      left, entered := ListedIsSound(p, t, net, n - 1);
      var l := Listed(p, t, n - 1);
      var s := Seek(p, l.work);
      var before := left;
      left, entered := SeekIsSound(p, net, l.work, left, entered, l.pops);
      if s.entry.Some? {
        ListOneMore(l.entries, s.entry.value, net, before);
      }
    }
  }

  /* ---------- the whole listing ---------- */

  /** What remains in the table when the iteration ends. */
  ghost function Remainder<K(!new)>(p: Scheme<K>, m: nat, net: Net<K>): seq<Bucket<K>> {
    EncodeOn(p, m, Core(p, m, net.Keys), net)
  }

  /**
   A listing holds exactly the keys outside the core, once each and with their signs; it is clean exactly when the
   counts of the core cancel in every bucket; and no more buckets are taken from the queue than the table has.
   */
  lemma ListingIsExact<K(!new)>(p: Scheme<K>, t: seq<Bucket<K>>, net: Net<K>, entries: seq<Entry<K>>, clean: bool)
    requires Listable(p, t, net) && Lists(p, t, entries, clean)
    ensures ListsOnce(entries) && SignsMatch(entries, net)
    ensures KeysOf(entries) == net.Keys - Core(p, |t|, net.Keys)
    ensures clean <==> AllCountsZero(Remainder(p, |t|, net))
    ensures |entries| <= |net| && Listed(p, t, |entries|).pops + Seek(p, Listed(p, t, |entries|).work).pops <= |t|
  {
    var l := Listed(p, t, |entries|);
    var s := Seek(p, l.work);
    var left, entered := ListedIsSound(p, t, net, |entries|);
    var left', entered' := SeekIsSound(p, net, l.work, left, entered, l.pops);
    DrainedIsCore(p, net, s.work.t, left', entered');
    ListedAtMost(entries, net);
    EnteredAtMost(entered', |t|);
  }

  /** The listing of a difference ends. */
  lemma ListingEnds<K(!new)>(p: Scheme<K>, t: seq<Bucket<K>>, net: Net<K>) returns (entries: seq<Entry<K>>, clean: bool)
    requires Listable(p, t, net)
    ensures Lists(p, t, entries, clean) && Ends(p, t)
  {
    entries, clean := ListingEndsFrom(p, t, net, 0);
    assert EndsAt(p, t, |entries|);
  }

  lemma {:induction false} ListingEndsFrom<K(!new)>(p: Scheme<K>, t: seq<Bucket<K>>, net: Net<K>, n: nat)
    returns (entries: seq<Entry<K>>, clean: bool)
    requires Listable(p, t, net) && |Listed(p, t, n).entries| == n
    ensures Lists(p, t, entries, clean)
    decreases |net| - n
  {
    if EndsAt(p, t, n) {
      entries, clean := Listed(p, t, n).entries, AllCountsZero(Listed(p, t, n).work.t);
    } else {
      OneMoreListed(p, t, n);
      ListedAtMostNet(p, t, net, n + 1);
      entries, clean := ListingEndsFrom(p, t, net, n + 1);
    }
  }

  lemma OneMoreListed<K>(p: Scheme<K>, t: seq<Bucket<K>>, n: nat)
    requires !EndsAt(p, t, n)
    ensures |Listed(p, t, n + 1).entries| == |Listed(p, t, n).entries| + 1
  {
  }

  lemma ListedAtMostNet<K(!new)>(p: Scheme<K>, t: seq<Bucket<K>>, net: Net<K>, n: nat)
    requires Listable(p, t, net)
    ensures |Listed(p, t, n).entries| <= |net|
  {
    var _, _ := ListedIsSound(p, t, net, n);
    ListedAtMost(Listed(p, t, n).entries, net);
  }

  lemma ListedAtMost<K>(entries: seq<Entry<K>>, net: Net<K>)
    requires ListsOnce(entries) && SignsMatch(entries, net)
    ensures |entries| <= |net|
  {
    CountListed(entries);
    assert KeysOf(entries) <= net.Keys;
    SubsetSize(KeysOf(entries), net.Keys);
    assert |net| == |net.Keys|;
  }

  lemma {:induction false} CountListed<K>(entries: seq<Entry<K>>)
    requires ListsOnce(entries)
    ensures |KeysOf(entries)| == |entries|
  {
    if entries != [] {
      var front, last := entries[..|entries| - 1], entries[|entries| - 1];
      CountListed(front);
      KeysOfAppend(front, last);
      assert entries == front + [last];
    }
  }

  lemma SubsetSize<T>(a: set<T>, b: set<T>)
    requires a <= b
    ensures |a| <= |b|
  {
    assert b == a + (b - a);
  }

  lemma {:induction false} EnteredAtMost(s: set<nat>, m: nat)
    requires forall n :: n in s ==> n < m
    ensures |s| <= m
  {
    if m > 0 {
      EnteredAtMost(s - {m - 1}, m - 1);
      assert s <= (s - {m - 1}) + {m - 1};
      SubsetSize(s, (s - {m - 1}) + {m - 1});
    } else {
      assert s == {};
    }
  }
}
