/**
 The iterator that lists the keys of a table by peeling it.
 */
module IbltIterator {
  import opened Wrappers
  import opened Algebra
  import opened Iblt
  import opened Peeling
  import opened Listing

  datatype Yield<K> = Yield(entry: Entry<K>) | IncompleteIteration

  class IbltIterator<K(==, !new)> {
    const scheme: Scheme<K>
    var buckets: seq<Bucket<K>>
    var queue: seq<nat>
    var incomplete: bool

    ghost function Now(): Work<K>
      reads this
    {
      Work(buckets, queue)
    }

    ghost predicate Valid()
      reads this
    {
      Lawful(scheme) && InRange(Now())
    }

    ghost predicate Finished()
      reads this
    {
      incomplete || (queue == [] && AllCountsZero(buckets))
    }

    constructor (scheme: Scheme<K>, buckets: seq<Bucket<K>>)
      requires Lawful(scheme)
      ensures this.scheme == scheme && Valid() && !incomplete
      ensures Now() == Start(scheme, buckets)
    {
      this.scheme, this.buckets := scheme, buckets;
      var q: seq<nat> := [];
      for i := 0 to |buckets|
        invariant q == PureUpTo(scheme, buckets, i)
      {
        if LooksPure(scheme, buckets[i]) {
          q := q + [i];
        }
      }
      queue, incomplete := q, false;
    }

    /** Updates the given buckets of a key one by one and queues those that become pure. */
    method VisitBuckets(key: K, c: int, places: seq<nat>)
      requires forall j :: 0 <= j < |places| ==> places[j] < |buckets|
      modifies this`buckets, this`queue
      ensures Now() == VisitAll(scheme, old(Now()), key, -c, places, |places|)
    {
      ghost var start := Now();
      for i := 0 to |places|
        invariant buckets == VisitAll(scheme, start, key, -c, places, i).t
        invariant queue == VisitAll(scheme, start, key, -c, places, i).queue
      {
        var n := places[i];
        buckets := buckets[n := ToggledOnce(scheme, buckets[n], key, -c)];
        if LooksPure(scheme, buckets[n]) {
          queue := queue + [n];
        }
      }
    }

    /** Takes one key out of the table, and queues its buckets that become pure. */
    method TakeKey(key: K, c: int)
      requires Valid() && 0 < |buckets|
      modifies this`buckets, this`queue
      ensures Now() == Taken(scheme, old(Now()), key, c)
    {
      ghost var start := Now();
      var places := Buckets(scheme, |buckets|, key);
      ListSweeps(scheme, |buckets|, key, places);
      VisitAllDone(scheme, start, key, -c, places);
      VisitBuckets(key, c, places);
    }

    /** Takes one bucket from the queue and lists its key, if it still has one. */
    method Pop() returns (r: Option<Entry<K>>)
      requires Valid() && queue != []
      modifies this`buckets, this`queue
      ensures Valid() && Popped(Now(), r) == PopOnce(scheme, old(Now()))
    {
      var b := buckets[queue[0]];
      queue := queue[1..];
      if b.count != 1 && b.count != -1 {
        return None;
      }
      TakeKey(b.keysum, b.count);
      r := Some(if b.count == 1 then Inserted(b.keysum) else Deleted(b.keysum));
    }

    /**
     Looks for the next key. When there is none the counts of the table decide between an end and an error, and after
     either the iterator has ended for good.
     */
    method Next() returns (r: Option<Yield<K>>)
      requires Valid()
      modifies this
      ensures Valid()
      ensures old(Finished()) ==> r == None && Now() == old(Now()) && incomplete == old(incomplete)
      ensures !old(incomplete) ==> Now() == Seek(scheme, old(Now())).work
      ensures !old(incomplete) ==>
                match Seek(scheme, old(Now())).entry
                case Some(e) => r == Some(Yield(e)) && !incomplete
                case None => r == (if AllCountsZero(buckets) then None else Some(IncompleteIteration)) && Finished()
    {
      if incomplete {
        return None;
      }
      while queue != []
        invariant Valid() && !incomplete && Seek(scheme, Now()).work == Seek(scheme, old(Now())).work
        invariant Seek(scheme, Now()).entry == Seek(scheme, old(Now())).entry
        invariant old(Finished()) ==> Now() == old(Now())
        decreases |queue|
      {
        var e := Pop();
        if e.Some? {
          return Some(Yield(e.value));
        }
      }
      for n := 0 to |buckets|
        invariant forall j :: 0 <= j < n ==> buckets[j].count == 0
      {
        if buckets[n].count != 0 {
          incomplete := true;
          return Some(IncompleteIteration);
        }
      }
      return None;
    }
  }
}
