/**
 Lookup tables that are kept beside a set of keys, one for each size, and updated key by key: when they equal the tables
 computed from scratch, and what is in them otherwise.
 */
module Caches {
  import opened Wrappers
  import opened Algebra
  import opened Difference

  type Table<!K> = seq<Bucket<K>>
  type Tables<!K> = map<nat, seq<Bucket<K>>>

  /** The table of a size is computed from the keys unless it is cached. */
  ghost function Looked<K>(p: Scheme<K>, iblts: Tables<K>, keys: set<K>, size: nat): Tables<K> {
    if size in iblts then iblts else iblts[size := TableOf(p, size, keys)]
  }

  /** A key is inserted into every table. */
  function WithInserted<K>(p: Scheme<K>, iblts: Tables<K>, key: K): Tables<K> {
    map s | s in iblts :: Toggled(p, iblts[s], key, 1)
  }

  /** The first i keys of a list are deleted from a table. */
  function DeletedFrom<K>(p: Scheme<K>, t: Table<K>, keys: seq<K>, i: nat): (r: Table<K>)
    requires i <= |keys|
    ensures |r| == |t|
  {
    if i == 0 then t else Toggled(p, DeletedFrom(p, t, keys, i - 1), keys[i - 1], -1)
  }

  function WithDeleted<K>(p: Scheme<K>, iblts: Tables<K>, keys: seq<K>): Tables<K> {
    map s | s in iblts :: DeletedFrom(p, iblts[s], keys, |keys|)
  }

  ghost predicate Sized<K>(iblts: Tables<K>) {
    forall s :: s in iblts ==> 0 < s == |iblts[s]|
  }

  /** Every cached table equals the one computed from scratch. */
  ghost predicate Exact<K>(p: Scheme<K>, iblts: Tables<K>, keys: set<K>) {
    forall s :: s in iblts ==> 0 < s && iblts[s] == TableOf(p, s, keys)
  }

  /* ---------- what is in a table after repeated additions ---------- */

  ghost predicate Positive<K>(d: Net<K>) {
    forall key :: key in d ==> d[key] > 0
  }

  /** The keys once each, and the surplus on top. */
  function WithSurplus<K>(keys: set<K>, d: Net<K>): Net<K> {
    map key | key in keys + d.Keys :: (if key in keys then 1 else 0) + Times(d, key)
  }

  /** Without a surplus this is the table of the keys. */
  lemma NoSurplus<K(!new)>(p: Scheme<K>, m: nat, keys: set<K>)
    requires Lawful(p)
    ensures Encode(p, m, WithSurplus(keys, map[])) == TableOf(p, m, keys)
  {
    EncodeCongruent(p, m, WithSurplus(keys, map[]), Indicator(keys));
  }

  /** A key that is added again goes to the surplus. */
  function NextSurplus<K>(d: Net<K>, keys: set<K>, id: K): Net<K> {
    if id in keys then Bump(d, id, 1) else d
  }

  lemma AddToSurplus<K(!new)>(p: Scheme<K>, t: Table<K>, keys: set<K>, d: Net<K>, id: K)
    requires Lawful(p) && t == Encode(p, |t|, WithSurplus(keys, d))
    ensures Toggled(p, t, id, 1) == Encode(p, |t|, WithSurplus(keys + {id}, NextSurplus(d, keys, id)))
  {
    ToggledEncodes(p, |t|, WithSurplus(keys, d), id, 1);
    EncodeCongruent(p, |t|, Bump(WithSurplus(keys, d), id, 1), WithSurplus(keys + {id}, NextSurplus(d, keys, id)));
  }

  lemma DeleteOneSurplus<K(!new)>(p: Scheme<K>, m: nat, t: Table<K>, keys: set<K>, d: Net<K>, id: K, rest: set<K>)
    requires Lawful(p) && id in keys && rest == keys - {id} && t == Encode(p, m, WithSurplus(keys, d))
    ensures Toggled(p, t, id, -1) == Encode(p, m, WithSurplus(rest, d))
  {
    ToggledEncodes(p, m, WithSurplus(keys, d), id, -1);
    EncodeCongruent(p, m, Bump(WithSurplus(keys, d), id, -1), WithSurplus(rest, d));
  }

  /** Deleting the first i of listed keys from a table takes them out of its keys and leaves the surplus. */
  lemma {:induction false} DeleteFromSurplus<K(!new)>(p: Scheme<K>, t: Table<K>, keys: set<K>, d: Net<K>, ids: seq<K>,
                                                      i: nat)
    requires Lawful(p) && i <= |ids| && Enumerates(ids, AllEntries(ids)) && AllEntries(ids) <= keys
    requires t == Encode(p, |t|, WithSurplus(keys, d))
    ensures DeletedFrom(p, t, ids, i) == Encode(p, |t|, WithSurplus(keys - Entries(ids, i), d))
  {
    if i == 0 {
      assert keys - Entries(ids, 0) == keys;
    } else {
      DeleteFromSurplus(p, t, keys, d, ids, i - 1);
      var before, after := keys - Entries(ids, i - 1), keys - Entries(ids, i);
      assert ids[i - 1] in before && after == before - {ids[i - 1]} by {
        NextEntry(ids, keys, i - 1);
      }
      DeleteOneSurplus(p, |t|, DeletedFrom(p, t, ids, i - 1), before, d, ids[i - 1], after);
    }
  }

  /** Counts only grow with multiplicities, and do grow in a bucket of a key with more of them. */
  lemma {:induction false} CountGrows<K(!new)>(p: Scheme<K>, m: nat, s: set<K>, a: Net<K>, b: Net<K>, n: nat, more: K)
    requires n < m && Lawful(p) && forall key :: key in s ==> Times(a, key) <= Times(b, key)
    ensures Sum(p, m, s, a, n).count <= Sum(p, m, s, b, n).count
    ensures more in s && Times(a, more) < Times(b, more) && Touches(p, m, more, n) ==>
              Sum(p, m, s, a, n).count < Sum(p, m, s, b, n).count
    decreases s
  {
    if s != {} {
      var key := if more in s then more else var k :| k in s; k;
      SumPick(p, m, s, a, n, key);
      SumPick(p, m, s, b, n, key);
      CountGrows(p, m, s - {key}, a, b, n, more);
    }
  }

  /** A table with a surplus is not the table of the keys. */
  lemma SurplusShows<K(!new)>(p: Scheme<K>, m: nat, keys: set<K>, d: Net<K>)
    requires Usable(p) && 0 < m && Positive(d)
    ensures Encode(p, m, WithSurplus(keys, d)) == TableOf(p, m, keys) <==> d == map[]
  {
    if key :| key in d {
      var all, n := keys + d.Keys, Place(p, m, key, 0);
      assert Hashed(p, m, key)[0] == n;
      EncodeOnSuperset(p, m, all, WithSurplus(keys, d));
      EncodeOnSuperset(p, m, all, Indicator(keys));
      CountGrows(p, m, all, Indicator(keys), WithSurplus(keys, d), n, key);
      assert Encode(p, m, WithSurplus(keys, d))[n] != TableOf(p, m, keys)[n];
    } else {
      assert d == map[];
      NoSurplus(p, m, keys);
    }
  }

  /* ---------- one cached table and its surplus ---------- */

  ghost function Cached<K>(iblts: Tables<K>, s: nat): Option<Table<K>> {
    if s in iblts then Some(iblts[s]) else None
  }

  /** The table encodes the keys and the surplus d, which is there exactly when a key was added again. */
  ghost predicate HasSurplus<K>(p: Scheme<K>, s: nat, table: Option<Table<K>>, keys: set<K>, d: Net<K>, again: bool) {
    && Positive(d) && (d != map[] <==> again) && (table.None? ==> d == map[])
    && (table.Some? ==> 0 < s && table.value == Encode(p, s, WithSurplus(keys, d)))
  }

  /** The table is as computed from scratch if and only if no key was added again. */
  lemma ExactIffNotAgain<K(!new)>(p: Scheme<K>, s: nat, table: Option<Table<K>>, keys: set<K>, d: Net<K>, again: bool)
    requires Usable(p) && HasSurplus(p, s, table, keys, d, again) && table.Some?
    ensures 0 < s && (table.value == TableOf(p, s, keys) <==> !again)
  {
    SurplusShows(p, s, keys, d);
  }

  lemma SurplusAfterLookup<K(!new)>(p: Scheme<K>, iblts: Tables<K>, keys: set<K>, size: nat, s: nat, d: Net<K>,
                                    again: bool)
    requires Lawful(p) && 0 < size && HasSurplus(p, s, Cached(iblts, s), keys, d, again)
    ensures HasSurplus(p, s, Cached(Looked(p, iblts, keys, size), s), keys, d, again)
  {
    NoSurplus(p, s, keys);
  }

  lemma SurplusAfterAdd<K(!new)>(p: Scheme<K>, s: nat, table: Option<Table<K>>, keys: set<K>, id: K, d: Net<K>,
                                 again: bool)
    returns (d': Net<K>)
    requires Lawful(p) && HasSurplus(p, s, table, keys, d, again)
    ensures HasSurplus(p, s, if table.Some? then Some(Toggled(p, table.value, id, 1)) else None, keys + {id}, d',
                       again || (table.Some? && id in keys))
  {
    d' := d;
    if table.Some? {
      AddToSurplus(p, table.value, keys, d, id);
      d' := NextSurplus(d, keys, id);
      assert id in keys ==> id in d';
    }
  }

  lemma SurplusAfterRemove<K(!new)>(p: Scheme<K>, s: nat, table: Option<Table<K>>, keys: set<K>, ids: seq<K>,
                                    d: Net<K>, again: bool)
    requires Lawful(p) && HasSurplus(p, s, table, keys, d, again)
    requires Enumerates(ids, AllEntries(ids)) && AllEntries(ids) <= keys
    ensures HasSurplus(p, s, if table.Some? then Some(DeletedFrom(p, table.value, ids, |ids|)) else None,
                       keys - AllEntries(ids), d, again)
  {
    if table.Some? {
      DeleteFromSurplus(p, table.value, keys, d, ids, |ids|);
    }
  }

  /* ---------- what keeps all tables exact ---------- */

  lemma LookupKeepsExact<K(!new)>(p: Scheme<K>, iblts: Tables<K>, keys: set<K>, size: nat)
    requires 0 < size && Exact(p, iblts, keys)
    ensures Exact(p, Looked(p, iblts, keys, size), keys)
    ensures size in Looked(p, iblts, keys, size) && Looked(p, iblts, keys, size)[size] == TableOf(p, size, keys)
  {
  }

  /** Adding a new key keeps the cached tables exact. */
  lemma AddKeepsExact<K(!new)>(p: Scheme<K>, iblts: Tables<K>, keys: set<K>, id: K)
    requires Lawful(p) && Exact(p, iblts, keys) && id !in keys
    ensures Exact(p, WithInserted(p, iblts, id), keys + {id})
  {
    forall s | s in iblts ensures Toggled(p, iblts[s], id, 1) == TableOf(p, s, keys + {id}) {
      TableGrows(p, s, keys, id);
    }
  }

  lemma TableGrows<K(!new)>(p: Scheme<K>, m: nat, s: set<K>, key: K)
    requires Lawful(p) && key !in s
    ensures Toggled(p, TableOf(p, m, s), key, 1) == TableOf(p, m, s + {key})
  {
    ToggledEncodes(p, m, Indicator(s), key, 1);
    assert Bump(Indicator(s), key, 1) == Indicator(s + {key});
  }

  /** Deleting keys that are there keeps them exact. */
  lemma RemoveKeepsExact<K(!new)>(p: Scheme<K>, iblts: Tables<K>, keys: set<K>, ids: seq<K>)
    requires Lawful(p) && Exact(p, iblts, keys) && Enumerates(ids, AllEntries(ids)) && AllEntries(ids) <= keys
    ensures Exact(p, WithDeleted(p, iblts, ids), keys - AllEntries(ids))
  {
    forall s | s in iblts ensures DeletedFrom(p, iblts[s], ids, |ids|) == TableOf(p, s, keys - AllEntries(ids)) {
      NoSurplus(p, s, keys);
      NoSurplus(p, s, keys - AllEntries(ids));
      DeleteFromSurplus(p, iblts[s], keys, map[], ids, |ids|);
    }
  }
}
