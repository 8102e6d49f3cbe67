/**
 Listing the difference of two sets from their tables: what the list contains, when the
 iteration ends cleanly, and what a clean end says about completeness.
 */
module Difference {
  import opened Wrappers
  import opened Algebra
  import opened Peeling
  import opened Listing
  import opened IbltIterator

  /** A set of keys, each inserted once. */
  function Indicator<K>(s: set<K>): Net<K> {
    map key | key in s :: 1
  }

  /** The keys of `a` alone with sign 1 and the keys of `b` alone with sign -1. */
  function Diff<K>(a: set<K>, b: set<K>): Net<K> {
    map key | key in (a - b) + (b - a) :: if key in a then 1 else -1
  }

  ghost function TableOf<K>(p: Scheme<K>, m: nat, s: set<K>): seq<Bucket<K>> {
    Encode(p, m, Indicator(s))
  }

  /** Subtracting the tables of two sets leaves the table of their signed difference. */
  lemma TablesSubtract<K(!new)>(p: Scheme<K>, m: nat, a: set<K>, b: set<K>)
    requires Lawful(p)
    ensures Subtracted(p, TableOf(p, m, a), TableOf(p, m, b)) == Encode(p, m, Diff(a, b))
    ensures SignedSet(Diff(a, b))
  {
    SubtractedEncodes(p, m, Indicator(a), Indicator(b));
    EncodeCongruent(p, m, NetMinus(Indicator(a), Indicator(b)), Diff(a, b));
  }

  /* ---------- parts of a difference ---------- */

  /** The hash also tells the keys of a part of the difference from mixtures. */
  lemma PurityInherits<K(!new)>(p: Scheme<K>, m: nat, net: Net<K>, part: Net<K>)
    requires Lawful(p) && NoFalsePurity(p, m, net) && part.Keys <= net.Keys
    requires forall key :: key in part ==> part[key] == net[key]
    ensures NoFalsePurity(p, m, part)
  {
    forall s: set<K>, n: nat | s <= part.Keys && n < m && LooksPure(p, Sum(p, m, s, part, n))
      ensures exists key :: Sole(p, m, s, n, key)
    {
      SumCongruent(p, m, s, part, net, n);
    }
  }

  /** With all signs turned a bucket shows the same with the opposite count. */
  lemma {:induction false} SumTurned<K(!new)>(p: Scheme<K>, m: nat, s: set<K>, net: Net<K>, turned: Net<K>, n: nat)
    requires n < m && Lawful(p) && forall key :: key in s ==> Times(turned, key) == -Times(net, key)
    ensures Sum(p, m, s, turned, n) == Sum(p, m, s, net, n).(count := -Sum(p, m, s, net, n).count)
    decreases s
  {
    if s != {} {
      var key :| key in s;
      SumPick(p, m, s, net, n, key);
      SumPick(p, m, s, turned, n, key);
      SumTurned(p, m, s - {key}, net, turned, n);
      OddOfSum(0, Times(net, key));
    }
  }

  lemma PurityTurns<K(!new)>(p: Scheme<K>, m: nat, a: set<K>, b: set<K>)
    requires Lawful(p) && NoFalsePurity(p, m, Diff(a, b))
    ensures NoFalsePurity(p, m, Diff(b, a))
  {
    forall s: set<K>, n: nat | s <= Diff(b, a).Keys && n < m && LooksPure(p, Sum(p, m, s, Diff(b, a), n))
      ensures exists key :: Sole(p, m, s, n, key)
    {
      SumTurned(p, m, s, Diff(a, b), Diff(b, a), n);
    }
  }

  /** The part of a difference that is still open between growing sets, and its core, are parts of the original. */
  lemma OpenPart<K(!new)>(p: Scheme<K>, m: nat, a: set<K>, b: set<K>, theirs: set<K>, mine: set<K>)
    requires Lawful(p) && NoFalsePurity(p, m, Diff(b, a)) && b <= theirs <= a + b && a <= mine <= a + b
    ensures NoFalsePurity(p, m, Diff(theirs, mine))
    ensures Core(p, m, Diff(theirs, mine).Keys) <= Core(p, m, Diff(b, a).Keys)
  {
    PurityInherits(p, m, Diff(b, a), Diff(theirs, mine));
    forall key | key in Core(p, m, Diff(theirs, mine).Keys) ensures key in Core(p, m, Diff(b, a).Keys) {
      var c :| c <= Diff(theirs, mine).Keys && IsCore(p, m, c) && key in c;
      assert c <= Diff(b, a).Keys;
      assert InSomeCore(p, m, Diff(b, a).Keys, key);
    }
  }

  /** Runs the iterator until it ends or reports an error, for a table on which it does. */
  method ListAll<K(==, !new)>(p: Scheme<K>, t: seq<Bucket<K>>) returns (entries: seq<Entry<K>>, clean: bool)
    requires Lawful(p) && Ends(p, t)
    ensures Lists(p, t, entries, clean)
  {
    entries, clean := [], true;
    ghost var bound: nat :| EndsAt(p, t, bound);
    var it := new IbltIterator(p, t);
    var more := true;
    while more
      invariant fresh(it) && it.scheme == p && it.Valid()
      invariant more ==> clean && !it.incomplete && |entries| <= bound && IsAt(p, t, entries, it.Now())
      invariant !more ==> Lists(p, t, entries, clean)
      decreases more, bound - |entries|
    {
      ghost var w := it.Now();
      var r := it.Next();
      if r.Some? && r.value.Yield? {
        MovesOn(p, t, entries, w, r.value.entry);
        entries := entries + [r.value.entry];
      } else {
        EndsHere(p, t, entries, w);
        clean, more := r.None?, false;
      }
    }
  }

  /** The iterator has listed the entries and stands at w. */
  ghost predicate IsAt<K>(p: Scheme<K>, t: seq<Bucket<K>>, entries: seq<Entry<K>>, w: Work<K>) {
    Listed(p, t, |entries|).entries == entries && Listed(p, t, |entries|).work == w
  }

  lemma MovesOn<K>(p: Scheme<K>, t: seq<Bucket<K>>, entries: seq<Entry<K>>, w: Work<K>, e: Entry<K>)
    requires InRange(w) && IsAt(p, t, entries, w) && Seek(p, w).entry == Some(e)
    ensures IsAt(p, t, entries + [e], Seek(p, w).work) && !EndsAt(p, t, |entries|)
  {
  }

  lemma EndsHere<K>(p: Scheme<K>, t: seq<Bucket<K>>, entries: seq<Entry<K>>, w: Work<K>)
    requires InRange(w) && IsAt(p, t, entries, w) && Seek(p, w).entry.None?
    ensures Lists(p, t, entries, AllCountsZero(Seek(p, w).work.t))
  {
  }

  /* ---------- what a clean end means ---------- */

  /** With all signs equal to one a bucket counts its keys. */
  lemma {:induction false} CountsMembers<K(!new)>(p: Scheme<K>, m: nat, s: set<K>, net: Net<K>, n: nat)
    requires n < m && Lawful(p) && forall key :: key in s ==> Times(net, key) == 1
    ensures Sum(p, m, s, net, n).count == |Members(p, m, s, n)|
    decreases s
  {
    if s == {} {
      assert Members(p, m, s, n) == {};
    } else {
      var key :| key in s;
      SumPick(p, m, s, net, n, key);
      CountsMembers(p, m, s - {key}, net, n);
      if Touches(p, m, key, n) {
        assert Members(p, m, s, n) == Members(p, m, s - {key}, n) + {key};
      } else {
        assert Members(p, m, s, n) == Members(p, m, s - {key}, n);
      }
    }
  }

  /** If one set contains the other, the iteration is clean exactly when no key was left unlisted. */
  lemma OneSidedCleanIsComplete<K(!new)>(p: Scheme<K>, m: nat, net: Net<K>)
    requires 0 < m && Usable(p) && forall key :: key in net ==> net[key] == 1
    ensures AllCountsZero(Remainder(p, m, net)) <==> Core(p, m, net.Keys) == {}
  {
    var core := Core(p, m, net.Keys);
    forall n | 0 <= n < m ensures Remainder(p, m, net)[n].count == |Members(p, m, core, n)| {
      CountsMembers(p, m, core, net, n);
    }
    if key :| key in core {
      var n := Place(p, m, key, 0);
      assert Hashed(p, m, key)[0] == n;
      assert n < m && key in Members(p, m, core, n);
      assert Remainder(p, m, net)[n].count != 0;
    } else {
      forall n | 0 <= n < m ensures Members(p, m, core, n) == {} {
      }
    }
  }

  /**
   With keys on both sides a clean end does not mean that all were listed: in a table of one
   bucket a key of one side and a key of the other cancel in the count.
   */
  lemma CleanEndCanHideKeys<K(!new)>(p: Scheme<K>, x: K, y: K)
    requires Usable(p) && x != y
    ensures var net := Diff({x}, {y});
            && Listable(p, Encode(p, 1, net), net)
            && Core(p, 1, net.Keys) == {x, y} == net.Keys
            && AllCountsZero(Remainder(p, 1, net))
  {
    var net := Diff({x}, {y});
    assert net.Keys == {x, y} && net[x] == 1 && net[y] == -1;
    assert Hashed(p, 1, x)[0] == 0 && Hashed(p, 1, y)[0] == 0;
    TwoKeysAreCore(p, x, y);
    TwoKeysOneBucket(p, net, x, y);
    forall s: set<K>, n: nat | s <= net.Keys && n < 1 && LooksPure(p, Sum(p, 1, s, net, n))
      ensures exists key :: Sole(p, 1, s, n, key)
    {
      PureSubset(p, net, x, y, s);
    }
  }

  lemma TwoKeysAreCore<K(!new)>(p: Scheme<K>, x: K, y: K)
    requires x != y && Touches(p, 1, x, 0) && Touches(p, 1, y, 0)
    ensures Core(p, 1, {x, y}) == {x, y}
  {
    assert Members(p, 1, {x, y}, 0) == {x, y};
    assert IsCore(p, 1, {x, y}) by {
      assert x in {x, y} && y in {x, y};
    }
    assert InSomeCore(p, 1, {x, y}, x) && InSomeCore(p, 1, {x, y}, y);
  }

  lemma TwoKeysOneBucket<K(!new)>(p: Scheme<K>, net: Net<K>, x: K, y: K)
    requires Lawful(p) && x != y && net.Keys == {x, y} && net[x] == 1 && net[y] == -1
    requires Touches(p, 1, x, 0) && Touches(p, 1, y, 0)
    ensures Sum(p, 1, {x, y}, net, 0).count == 0
  {
    SumPick(p, 1, {x, y}, net, 0, x);
    assert {x, y} - {x} == {y};
    SumPick(p, 1, {y}, net, 0, y);
    assert {y} - {y} == {};
  }

  lemma PureSubset<K(!new)>(p: Scheme<K>, net: Net<K>, x: K, y: K, s: set<K>)
    requires Lawful(p) && x != y && net.Keys == {x, y} && net[x] == 1 && net[y] == -1
    requires Touches(p, 1, x, 0) && Touches(p, 1, y, 0)
    requires s <= {x, y} && LooksPure(p, Sum(p, 1, s, net, 0))
    ensures exists key :: Sole(p, 1, s, 0, key)
  {
    TwoKeysOneBucket(p, net, x, y);
    assert x in s && y in s ==> s == {x, y};
    assert x !in s && y !in s ==> s == {};
    assert x in s && y !in s ==> s == {x} && Sole(p, 1, s, 0, x);
    assert y in s && x !in s ==> s == {y} && Sole(p, 1, s, 0, y);
  }

  /* ---------- bringing a set in line with another ---------- */

  /** The set after the first i entries of a list were applied to it. */
  function Applied<K>(a: set<K>, entries: seq<Entry<K>>, i: nat): set<K>
    requires i <= |entries|
  {
    if i == 0 then a
    else if entries[i - 1].Inserted? then Applied(a, entries, i - 1) - {entries[i - 1].key}
    else Applied(a, entries, i - 1) + {entries[i - 1].key}
  }

  /** Applying entries of the difference of two sets turns the one into the other as far as they go. */
  lemma {:induction false} AppliedAgrees<K>(a: set<K>, b: set<K>, entries: seq<Entry<K>>, i: nat)
    requires i <= |entries| && SignsMatch(entries, Diff(a, b))
    ensures forall key :: key in Applied(a, entries, i) <==>
                          if exists j :: 0 <= j < i && entries[j].key == key then key in b else key in a
  {
    if i > 0 {
      AppliedAgrees(a, b, entries, i - 1);
      var e := entries[i - 1];
      assert e.key in Diff(a, b) && (e.key in a) == e.Inserted? && (e.key in b) == e.Deleted?;
    }
  }

  /**
   Applies the listed difference of the tables of `a` and `b` to `a`. Outside the core the result
   agrees with `b`, on the core it is unchanged, and the call succeeds exactly when the listing was clean.
   */
  method Sync<K(==, !new)>(p: Scheme<K>, mine: seq<Bucket<K>>, other: seq<Bucket<K>>, a: set<K>, ghost b: set<K>)
    returns (result: set<K>, ok: bool)
    requires Lawful(p) && |mine| == |other| && mine == TableOf(p, |mine|, a) && other == TableOf(p, |mine|, b)
    requires NoFalsePurity(p, |mine|, Diff(a, b))
    ensures forall key :: key in result <==>
                          if key in Core(p, |mine|, Diff(a, b).Keys) then key in a else key in b
    ensures ok <==> AllCountsZero(Remainder(p, |mine|, Diff(a, b)))
  {
    TablesSubtract(p, |mine|, a, b);
    var copy := Subtracted(p, mine, other);
    var entries, clean := ListDifference(p, copy, Diff(a, b));
    result := a;
    for i := 0 to |entries|
      invariant result == Applied(a, entries, i)
    {
      match entries[i] {
        case Inserted(key) => result := result - {key};
        case Deleted(key) => result := result + {key};
      }
    }
    ok := clean;
    AppliedAgrees(a, b, entries, |entries|);
    ListedOutsideCore(a, b, entries, Core(p, |mine|, Diff(a, b).Keys));
  }

  lemma ListedOutsideCore<K>(a: set<K>, b: set<K>, entries: seq<Entry<K>>, core: set<K>)
    requires KeysOf(entries) == Diff(a, b).Keys - core && core <= Diff(a, b).Keys
    ensures forall key ::
              (if exists j :: 0 <= j < |entries| && entries[j].key == key then key in b else key in a)
              == (if key in core then key in a else key in b)
  {
    forall key
      ensures (if exists j :: 0 <= j < |entries| && entries[j].key == key then key in b else key in a)
           == (if key in core then key in a else key in b)
    {
      assert key in KeysOf(entries) <==> exists j :: 0 <= j < |entries| && entries[j].key == key;
    }
  }

  /**
   Lists the table of a difference. The list holds exactly the keys outside the core, once each and with their signs.
   */
  method ListDifference<K(==, !new)>(p: Scheme<K>, t: seq<Bucket<K>>, ghost net: Net<K>)
    returns (entries: seq<Entry<K>>, clean: bool)
    requires Listable(p, t, net)
    ensures ListsOnce(entries) && SignsMatch(entries, net) && KeysOf(entries) == net.Keys - Core(p, |t|, net.Keys)
    ensures clean <==> AllCountsZero(Remainder(p, |t|, net))
  {
    ghost var _, _ := ListingEnds(p, t, net);
    entries, clean := ListAll(p, t);
    ListingIsExact(p, t, net, entries, clean);
  }
}
