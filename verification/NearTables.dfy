/**
 Exchanges with any overlap. Cached tables may count keys more than once, but as long as no key is counted two times
 more on one side than on the other when a table is decoded, requests are for rows that the asked node holds.
 */
module NearTables {
  import opened Wrappers
  import opened Algebra
  import opened Peeling
  import opened Listing
  import opened Difference
  import opened Caches
  import opened Exchange
  import opened Refinement
  import opened Simulation

  /* ---------- what is requested from tables with a surplus ---------- */

  /** By how much the counts of keys in two tables differ, where they do. */
  function Gap<K>(a: set<K>, d: Net<K>, b: set<K>, e: Net<K>): Net<K> {
    map key | key in a + d.Keys + (b + e.Keys) && Times(WithSurplus(a, d), key) != Times(WithSurplus(b, e), key) ::
      Times(WithSurplus(a, d), key) - Times(WithSurplus(b, e), key)
  }

  lemma GapTable<K(!new)>(p: Scheme<K>, m: nat, a: set<K>, d: Net<K>, b: set<K>, e: Net<K>)
    requires Lawful(p)
    ensures Subtracted(p, Encode(p, m, WithSurplus(a, d)), Encode(p, m, WithSurplus(b, e))) ==
            Encode(p, m, Gap(a, d, b, e))
  {
    SubtractedEncodes(p, m, WithSurplus(a, d), WithSurplus(b, e));
    EncodeCongruent(p, m, NetMinus(WithSurplus(a, d), WithSurplus(b, e)), Gap(a, d, b, e));
  }

  /** The counts differ by at most one, and the hash tells the keys with different counts from mixtures. */
  ghost predicate Close<K(!new)>(p: Scheme<K>, m: nat, a: set<K>, d: Net<K>, b: set<K>, e: Net<K>) {
    SignedSet(Gap(a, d, b, e)) && NoFalsePurity(p, m, Gap(a, d, b, e))
  }

  /** The keys that are counted once more in the first table. */
  function OneMore<K>(net: Net<K>): set<K> {
    set key | key in net && net[key] == 1
  }

  lemma RequestedSide<K(!new)>(entries: seq<Entry<K>>, net: Net<K>)
    requires SignsMatch(entries, net)
    ensures AllEntries(RequestOf(entries, |entries|)) == OneMore(net) * KeysOf(entries)
  {
    forall key ensures key in AllEntries(RequestOf(entries, |entries|)) <==>
                       key in OneMore(net) && key in KeysOf(entries) {
      RequestedAt(entries, |entries|, key);
    }
  }

  /** What is requested from close tables: each key that the sender counts once more, except those of the core. */
  lemma CloseRequest<K(!new)>(p: Scheme<K>, m: nat, a: set<K>, d: Net<K>, b: set<K>, e: Net<K>, entries: seq<Entry<K>>,
                              clean: bool)
    requires Lawful(p) && Close(p, m, a, d, b, e)
    requires Lists(p, Subtracted(p, Encode(p, m, WithSurplus(a, d)), Encode(p, m, WithSurplus(b, e))), entries, clean)
    ensures var net := Gap(a, d, b, e);
            Enumerates(RequestOf(entries, |entries|), OneMore(net) - Core(p, m, net.Keys))
  {
    var net := Gap(a, d, b, e);
    GapTable(p, m, a, d, b, e);
    ListingIsExact(p, Encode(p, m, net), net, entries, clean);
    RequestedSide(entries, net);
    RequestsOnce(entries, |entries|);
    assert OneMore(net) * KeysOf(entries) == OneMore(net) - Core(p, m, net.Keys);
  }

  /** The table counts the keys once each and some of them more often. */
  ghost predicate Explains<K>(p: Scheme<K>, table: Table<K>, keys: set<K>, d: Net<K>) {
    Positive(d) && d.Keys <= keys && table == Encode(p, |table|, WithSurplus(keys, d))
  }

  /** Close tables only make a node ask for what the sender of the table held. */
  lemma CloseRequestIsHeld<K(!new)>(p: Scheme<K>, t: Table<K>, a: set<K>, d: Net<K>, own: Table<K>, b: set<K>,
                                    e: Net<K>,
                                    entries: seq<Entry<K>>, clean: bool)
    requires Lawful(p) && |t| == |own| && Explains(p, t, a, d) && Explains(p, own, b, e) && Close(p, |t|, a, d, b, e)
    requires Lists(p, Subtracted(p, t, own), entries, clean)
    ensures AllEntries(RequestOf(entries, |entries|)) <= a
  {
    CloseRequest(p, |t|, a, d, b, e, entries, clean);
    forall key | key in OneMore(Gap(a, d, b, e)) ensures key in a {
      assert Times(WithSurplus(b, e), key) >= 0;
    }
  }

  /* ---------- what every exchange keeps ---------- */

  ghost predicate Explained<K(!new)>(p: Scheme<K>, table: Table<K>, keys: set<K>) {
    exists d :: Explains(p, table, keys, d)
  }

  ghost predicate CachesExplained<K(!new), C(!new)>(r: Realm<K, C>, n: Holder<K, C>) {
    forall size :: size in n.iblts ==> 0 < size == |n.iblts[size]| && Explained(r.p, n.iblts[size], n.rows.Keys)
  }

  ghost predicate TablesExplained<K(!new), C(!new)>(r: Realm<K, C>, tables: seq<Sent<K>>, held: set<K>) {
    forall i :: 0 <= i < |tables| ==>
                  0 < |tables[i].table| && tables[i].keys <= held && Explained(r.p, tables[i].table, tables[i].keys)
  }

  /**
   The left node holds what it is asked for, and what is on its way to it is explained by what the right node holds.
   */
  ghost predicate LeftGood<K(!new), C(!new)>(r: Realm<K, C>, a: map<K, C>, b: map<K, C>, s: Duo<K, C>) {
    && Convergence.Drawn(a, b, s.left.rows) && CachesExplained(r, s.left) && LeftCanAnswer(s)
    && TablesExplained(r, s.toLeft.tables, s.right.rows.Keys)
    && forall c :: c in s.toLeft.ads ==> Convergence.OneOf(a, b, r.keyOf(c), c)
  }

  ghost predicate Good<K(!new), C(!new)>(r: Realm<K, C>, a: map<K, C>, b: map<K, C>, s: Duo<K, C>) {
    LeftGood(r, a, b, s) && LeftGood(r, b, a, Flip(s))
  }

  lemma ExactIsExplained<K(!new)>(p: Scheme<K>, m: nat, keys: set<K>)
    requires Lawful(p)
    ensures Explained(p, TableOf(p, m, keys), keys)
  {
    var none: Net<K> := map[];
    NoSurplus(p, m, keys);
    assert Explains(p, TableOf(p, m, keys), keys, none);
  }

  lemma LookupExplained<K(!new), C(!new)>(r: Realm<K, C>, n: Holder<K, C>, size: nat)
    requires Lawful(r.p) && CachesExplained(r, n) && 0 < size
    ensures CachesExplained(r, n.(iblts := Looked(r.p, n.iblts, n.rows.Keys, size)))
  {
    ExactIsExplained(r.p, size, n.rows.Keys);
  }

  lemma TablesExplainedJoin<K(!new), C(!new)>(r: Realm<K, C>, a: seq<Sent<K>>, b: seq<Sent<K>>, held: set<K>)
    requires TablesExplained(r, a, held) && TablesExplained(r, b, held)
    ensures TablesExplained(r, a + b, held)
  {
  }

  lemma TablesExplainedWithout<K(!new), C(!new)>(r: Realm<K, C>, tables: seq<Sent<K>>, held: set<K>, i: nat)
    requires TablesExplained(r, tables, held) && i < |tables|
    ensures TablesExplained(r, Without(tables, i), held)
  {
  }

  lemma PollGood<K(!new), C(!new)>(r: Realm<K, C>, a: map<K, C>, b: map<K, C>, s: Duo<K, C>, out: Post<K, C>,
                                   s': Duo<K, C>)
    requires Fair(r, a, b) && Good(r, a, b, s) && Receives(r, s, Poll, out, s')
    ensures Good(r, a, b, s')
  {
    var n, n' := s.left, s'.left;
    if n.asked && out != NoPost() {
      var size: nat :| SendsTable(r, n, size, n', out);
      LookupExplained(r, n, size);
      assert TablesExplained(r, out.tables, n'.rows.Keys);
    }
    TablesExplainedJoin(r, s.toRight.tables, out.tables, n'.rows.Keys);
    assert out.gets == [] && out.ads == multiset{};
    assert s'.toRight.gets == s.toRight.gets;
  }

  /** Whatever explains the two tables, they are close. */
  ghost predicate Near<K(!new), C(!new)>(r: Realm<K, C>, n: Holder<K, C>, t: Sent<K>) {
    var iblts := Looked(r.p, n.iblts, n.rows.Keys, |t.table|);
    forall d, e :: |t.table| in iblts && Explains(r.p, t.table, t.keys, d) &&
                   Explains(r.p, iblts[|t.table|], n.rows.Keys, e) ==>
                     Close(r.p, |t.table|, t.keys, d, n.rows.Keys, e)
  }

  lemma NearRequest<K(!new), C(!new)>(r: Realm<K, C>, n: Holder<K, C>, t: Sent<K>, n': Holder<K, C>, out: Post<K, C>)
    requires Lawful(r.p) && CachesExplained(r, n) && Explained(r.p, t.table, t.keys) && Near(r, n, t)
    requires OnTable(r, n, t.table, n', out)
    ensures CachesExplained(r, n') && n' == n.(iblts := n'.iblts)
    ensures out.polls == 0 && out.tables == [] && out.ads == multiset{}
    ensures forall j :: 0 <= j < |out.gets| ==> AllEntries(out.gets[j]) <= t.keys
  {
    var entries: seq<Entry<K>>, clean: bool :| Decodes(r, n, t.table, entries, clean, n', out);
    LookupExplained(r, n, |t.table|);
    NearDecoded(r, n, t, n'.iblts[|t.table|], entries, clean);
  }

  lemma NearDecoded<K(!new), C(!new)>(r: Realm<K, C>, n: Holder<K, C>, t: Sent<K>, own: Table<K>,
                                      entries: seq<Entry<K>>, clean: bool)
    requires Lawful(r.p) && Explained(r.p, t.table, t.keys) && Explained(r.p, own, n.rows.Keys) && Near(r, n, t)
    requires var iblts := Looked(r.p, n.iblts, n.rows.Keys, |t.table|);
             |t.table| in iblts && own == iblts[|t.table|] && |own| == |t.table|
    requires Lists(r.p, Subtracted(r.p, t.table, own), entries, clean)
    ensures AllEntries(RequestOf(entries, |entries|)) <= t.keys
  {
    var d :| Explains(r.p, t.table, t.keys, d);
    var e :| Explains(r.p, own, n.rows.Keys, e);
    CloseRequestIsHeld(r.p, t.table, t.keys, d, own, n.rows.Keys, e, entries, clean);
  }

  lemma TableGood<K(!new), C(!new)>(r: Realm<K, C>, a: map<K, C>, b: map<K, C>, s: Duo<K, C>, i: nat, out: Post<K, C>,
                                    s': Duo<K, C>)
    requires Fair(r, a, b) && Good(r, a, b, s) && Receives(r, s, Table(i), out, s') &&
             Near(r, s.left, s.toLeft.tables[i])
    ensures Good(r, a, b, s')
  {
    NearRequest(r, s.left, s.toLeft.tables[i], s'.left, out);
    TablesExplainedWithout(r, s.toLeft.tables, s.right.rows.Keys, i);
    assert s'.toRight.tables == s.toRight.tables && s'.toRight.ads == s.toRight.ads;
  }

  lemma GetGood<K(!new), C(!new)>(r: Realm<K, C>, a: map<K, C>, b: map<K, C>, s: Duo<K, C>, i: nat, out: Post<K, C>,
                                  s': Duo<K, C>)
    requires Fair(r, a, b) && Good(r, a, b, s) && Receives(r, s, Get(i), out, s')
    ensures Good(r, a, b, s')
  {
    RowsReadBack(r, a, b, s.left.rows);
    var ids := s.toLeft.gets[i];
    forall c | c in out.ads ensures Convergence.OneOf(b, a, r.keyOf(c), c) {
      var answers := Answers(r.reread, s.left.rows, ids);
      var j :| 0 <= j < |answers| && answers[j] == c;
      assert c == s.left.rows[ids[j]] && r.keyOf(c) == ids[j];
      assert Convergence.OneOf(a, b, ids[j], c);
    }
    assert s'.toRight.tables == s.toRight.tables && s'.toRight.gets == s.toRight.gets;
  }

  lemma AddedExplained<K(!new), C(!new)>(r: Realm<K, C>, n: Holder<K, C>, c: C)
    requires Lawful(r.p) && CachesExplained(r, n)
    ensures CachesExplained(r, Added(r, n, c))
  {
    var n' := Added(r, n, c);
    if r.accepts(c) {
      var key := r.keyOf(c);
      assert n'.rows.Keys == n.rows.Keys + {key};
      forall size | size in n'.iblts ensures 0 < size == |n'.iblts[size]| &&
                                             Explained(r.p, n'.iblts[size], n'.rows.Keys) {
        assert Explained(r.p, n.iblts[size], n.rows.Keys);
        var d :| Explains(r.p, n.iblts[size], n.rows.Keys, d);
        AddToSurplus(r.p, n.iblts[size], n.rows.Keys, d, key);
        assert Explains(r.p, n'.iblts[size], n'.rows.Keys, NextSurplus(d, n.rows.Keys, key));
      }
    }
  }

  lemma AdGood<K(!new), C(!new)>(r: Realm<K, C>, a: map<K, C>, b: map<K, C>, s: Duo<K, C>, c: C, out: Post<K, C>,
                                 s': Duo<K, C>)
    requires Fair(r, a, b) && Good(r, a, b, s) && Receives(r, s, Ad(c), out, s')
    ensures Good(r, a, b, s')
  {
    var n := s.left;
    var keys: seq<K> :| Truncates(r, Added(r, n, c), keys, s'.left);
    Convergence.StoredIsDrawn(WorldOf(r), a, b, n.rows, c);
    assert keys == [];
    AddedExplained(r, n, c);
    assert s'.left == Added(r, n, c) by {
      assert WithDeleted(r.p, Added(r, n, c).iblts, []) == Added(r, n, c).iblts;
    }
    assert s'.toRight == s.toRight;
  }

  lemma ReceivingGood<K(!new), C(!new)>(r: Realm<K, C>, a: map<K, C>, b: map<K, C>, s: Duo<K, C>, m: Arrival<C>,
                                        out: Post<K, C>, s': Duo<K, C>)
    requires Fair(r, a, b) && Good(r, a, b, s) && Receives(r, s, m, out, s')
    requires m.Table? ==> Near(r, s.left, s.toLeft.tables[m.i])
    ensures Good(r, a, b, s')
  {
    match m {
      case Poll => PollGood(r, a, b, s, out, s');
      case Table(i) => TableGood(r, a, b, s, i, out, s');
      case Get(i) => GetGood(r, a, b, s, i, out, s');
      case Ad(c) => AdGood(r, a, b, s, c, out, s');
    }
  }

  /* ---------- whole exchanges ---------- */

  /** In this step the left node decodes no table that is not near its own. */
  ghost predicate LeftNear<K(!new), C(!new)>(r: Realm<K, C>, s: Duo<K, C>, s': Duo<K, C>) {
    forall i: nat, out: Post<K, C> :: Receives(r, s, Table(i), out, s') ==> Near(r, s.left, s.toLeft.tables[i])
  }

  ghost predicate NearUpTo<K(!new), C(!new)>(r: Realm<K, C>, states: seq<Duo<K, C>>, i: nat) {
    forall j :: 0 <= j < i && j + 1 < |states| ==>
                  LeftNear(r, states[j], states[j + 1]) && LeftNear(r, Flip(states[j]), Flip(states[j + 1]))
  }

  lemma StepGood<K(!new), C(!new)>(r: Realm<K, C>, a: map<K, C>, b: map<K, C>, s: Duo<K, C>, s': Duo<K, C>)
    requires Fair(r, a, b) && Good(r, a, b, s) && Step(r, s, s')
    requires LeftNear(r, s, s') && LeftNear(r, Flip(s), Flip(s'))
    ensures Good(r, a, b, s')
  {
    if LeftReceives(r, s, s') {
      var m: Arrival<C>, out: Post<K, C> :| Receives(r, s, m, out, s');
      ReceivingGood(r, a, b, s, m, out, s');
    } else if LeftReceives(r, Flip(s), Flip(s')) {
      var m: Arrival<C>, out: Post<K, C> :| Receives(r, Flip(s), m, out, Flip(s'));
      FairFlips(r, a, b);
      ReceivingGood(r, b, a, Flip(s), m, out, Flip(s'));
      assert Flip(Flip(s')) == s';
    }
  }

  lemma BeginsGood<K(!new), C(!new)>(r: Realm<K, C>, a: map<K, C>, b: map<K, C>, s: Duo<K, C>)
    requires Lawful(r.p) && Begins(r, a, b, s)
    ensures Good(r, a, b, s)
  {
    ExactExplained(r, s.left);
    ExactExplained(r, s.right);
  }

  lemma ExactExplained<K(!new), C(!new)>(r: Realm<K, C>, n: Holder<K, C>)
    requires Lawful(r.p) && ExactNode(r, n)
    ensures CachesExplained(r, n)
  {
    forall size | size in n.iblts ensures 0 < size == |n.iblts[size]| && Explained(r.p, n.iblts[size], n.rows.Keys) {
      ExactIsExplained(r.p, size, n.rows.Keys);
    }
  }

  /**
   In every exchange of fair nodes, however its tables overlap and whatever arrives again: as long as no table is
   decoded in which some key is counted two times more or less than in the own table, and the hash tells keys from
   mixtures, no node is asked for a row that it does not hold.
   */
  lemma {:induction false} NearExchangesAnswer<K(!new), C(!new)>(r: Realm<K, C>, a: map<K, C>, b: map<K, C>,
                                                                 states: seq<Duo<K, C>>, i: nat)
    requires Fair(r, a, b) && Run(r, a, b, states) && i < |states| && NearUpTo(r, states, i)
    ensures Good(r, a, b, states[i]) && LeftCanAnswer(states[i]) && LeftCanAnswer(Flip(states[i]))
  {
    if i == 0 {
      BeginsGood(r, a, b, states[0]);
    } else {
      NearExchangesAnswer(r, a, b, states, i - 1);
      assert Step(r, states[i - 1], states[i]);
      assert LeftNear(r, states[i - 1], states[i]) && LeftNear(r, Flip(states[i - 1]), Flip(states[i]));
      StepGood(r, a, b, states[i - 1], states[i]);
    }
  }

  /* ---------- a row that was stored twice ---------- */

  /**
   A row that both nodes hold and one has stored twice is requested by the other like the rows it really misses,
   except keys of the core.
   */
  lemma RepeatedIsRequested<K(!new)>(p: Scheme<K>, m: nat, a: set<K>, b: set<K>, id: K, entries: seq<Entry<K>>,
                                     clean: bool)
    requires Lawful(p) && id in a * b && NoFalsePurity(p, m, Diff(a, b)[id := 1])
    requires Lists(p, Subtracted(p, Encode(p, m, WithSurplus(a, map[id := 1])), TableOf(p, m, b)), entries, clean)
    ensures Enumerates(RequestOf(entries, |entries|), ((a - b) + {id}) - Core(p, m, Diff(a, b).Keys + {id}))
  {
    RepeatedGap(a, b, id);
    NoSurplus(p, m, b);
    CloseRequest(p, m, a, map[id := 1], b, map[], entries, clean);
  }

  lemma RepeatedGap<K>(a: set<K>, b: set<K>, id: K)
    requires id in a * b
    ensures var net := Gap(a, map[id := 1], b, map[]);
            && net == Diff(a, b)[id := 1] && net.Keys == Diff(a, b).Keys + {id} && OneMore(net) == (a - b) + {id}
            && SignedSet(net)
  {
    var net := Gap(a, map[id := 1], b, map[]);
    forall key ensures Times(WithSurplus(a, map[id := 1]), key) ==
                       (if key in a then 1 else 0) + (if key == id then 1 else 0) {
    }
    forall key ensures Times(WithSurplus(b, map[]), key) == if key in b then 1 else 0 {
    }
    assert net.Keys == Diff(a, b).Keys + {id};
    assert net == Diff(a, b)[id := 1];
  }

  /** With this row alone, the iterator lists it as inserted. */
  lemma RepeatedIsListed<K(!new)>(p: Scheme<K>, m: nat, id: K) returns (clean: bool)
    requires Usable(p) && 0 < m
    ensures Lists(p, Subtracted(p, Encode(p, m, WithSurplus({id}, map[id := 1])), TableOf(p, m, {id})),
                  [Inserted(id)], clean)
  {
    var net: Net<K> := map[id := 1];
    var t := Subtracted(p, Encode(p, m, WithSurplus({id}, map[id := 1])), TableOf(p, m, {id}));
    assert Gap({id}, map[id := 1], {id}, map[]) == net;
    NoSurplus(p, m, {id});
    GapTable(p, m, {id}, map[id := 1], {id}, map[]);
    OneKeyPure(p, m, id);
    var entries: seq<Entry<K>>;
    entries, clean := ListingEnds(p, t, net);
    ListingIsExact(p, t, net, entries, clean);
    OneKeyNoCore(p, m, id);
    OneEntry(entries, id);
  }

  lemma OneKeyPure<K(!new)>(p: Scheme<K>, m: nat, id: K)
    requires Lawful(p)
    ensures NoFalsePurity(p, m, map[id := 1])
  {
    var net: Net<K> := map[id := 1];
    forall s: set<K>, n: nat | s <= net.Keys && n < m && LooksPure(p, Sum(p, m, s, net, n))
      ensures exists key :: Sole(p, m, s, n, key)
    {
      if Members(p, m, s, n) == {} {
        EmptyBucket(p, m, net, s, n);
      } else {
        assert Sole(p, m, s, n, id);
      }
    }
  }

  lemma OneKeyNoCore<K(!new)>(p: Scheme<K>, m: nat, id: K)
    requires Usable(p) && 0 < m
    ensures Core(p, m, {id}) == {}
  {
    var n := Place(p, m, id, 0);
    assert Hashed(p, m, id)[0] == n;
    forall c | c <= {id} && IsCore(p, m, c) ensures id !in c {
      if id in c {
        assert c == {id} && Members(p, m, {id}, n) == {id};
        assert Sole(p, m, {id}, n, id);
      }
    }
  }

  lemma OneEntry<K>(entries: seq<Entry<K>>, id: K)
    requires ListsOnce(entries) && KeysOf(entries) == {id} && SignsMatch(entries, map[id := 1])
    ensures entries == [Inserted(id)]
  {
    CountListed(entries);
    assert entries[0].key in KeysOf(entries);
  }
}
