/**
 Whole exchanges of two nodes of the system. Where no content arrives at a node that holds it and caches tables, the
 exchange is a run of the protocol: no request fails, and the nodes end up with the rows of both. Exchanges in which
 tables are sent only when nothing of the previous one is on its way are of this kind.
 */
module Simulation {
  import opened Wrappers
  import opened Algebra
  import opened Peeling
  import opened Listing
  import opened Difference
  import opened Caches
  import opened Exchange
  import opened Refinement
  import Convergence
  import OneExchange

  /**
   The rows of both nodes are acceptable, fit the limit together and read back as they were stored, and the hash tells
   the keys of their difference from mixtures in tables of every size in use.
   */
  ghost predicate Fair<K(!new), C(!new)>(r: Realm<K, C>, a: map<K, C>, b: map<K, C>) {
    Usable(r.p) && Convergence.Setting(WorldOf(r), a, b) && ReadsBack(r, a) && ReadsBack(r, b)
  }

  lemma FairFlips<K(!new), C(!new)>(r: Realm<K, C>, a: map<K, C>, b: map<K, C>)
    requires Fair(r, a, b)
    ensures Fair(r, b, a)
  {
    Convergence.SettingSwaps(WorldOf(r), a, b);
  }

  /** In tables of the sizes sent so far the hash tells the keys of the difference from mixtures. */
  ghost predicate TellsApart<K(!new), C(!new)>(r: Realm<K, C>, a: map<K, C>, b: map<K, C>, s: Duo<K, C>) {
    forall m :: m in s.left.sent + s.right.sent ==> NoFalsePurity(r.p, m, Diff(a.Keys, b.Keys))
  }

  lemma TellsApartFlips<K(!new), C(!new)>(r: Realm<K, C>, a: map<K, C>, b: map<K, C>, s: Duo<K, C>)
    requires Lawful(r.p) && TellsApart(r, a, b, s)
    ensures TellsApart(r, b, a, Flip(s))
  {
    forall m | m in Flip(s).left.sent + Flip(s).right.sent ensures NoFalsePurity(r.p, m, Diff(b.Keys, a.Keys)) {
      assert m in s.left.sent + s.right.sent;
      PurityTurns(r.p, m, a.Keys, b.Keys);
    }
  }

  /** The sizes sent are only ever added to. */
  lemma SentGrows<K(!new), C(!new)>(r: Realm<K, C>, s: Duo<K, C>, s': Duo<K, C>)
    requires Step(r, s, s')
    ensures s.left.sent <= s'.left.sent && s.right.sent <= s'.right.sent
  {
    if LeftReceives(r, s, s') {
      var m: Arrival<C>, out: Post<K, C> :| Receives(r, s, m, out, s');
      ReceiverSentGrows(r, s, m, out, s');
    } else if LeftReceives(r, Flip(s), Flip(s')) {
      var m: Arrival<C>, out: Post<K, C> :| Receives(r, Flip(s), m, out, Flip(s'));
      ReceiverSentGrows(r, Flip(s), m, out, Flip(s'));
    }
  }

  lemma ReceiverSentGrows<K(!new), C(!new)>(r: Realm<K, C>, s: Duo<K, C>, m: Arrival<C>, out: Post<K, C>, s': Duo<K, C>)
    requires Receives(r, s, m, out, s')
    ensures s.left.sent <= s'.left.sent && s.right.sent == s'.right.sent
  {
  }

  /** The keys only one node started with. */
  function Apart<K, C>(a: map<K, C>, b: map<K, C>): set<K> {
    (a.Keys - b.Keys) + (b.Keys - a.Keys)
  }

  /** The keys that tables of the given sizes cannot give away. */
  ghost function Unlisted<K(!new)>(p: Scheme<K>, sizes: set<nat>, d: set<K>): set<K> {
    set key | key in d && exists m :: m in sizes && key in Core(p, m, d)
  }

  /* ---------- what sound nodes have on their wires ---------- */

  ghost predicate GoodTables<K, C>(r: Realm<K, C>, sizes: set<nat>, tables: seq<Sent<K>>) {
    forall i :: 0 <= i < |tables| ==> TrueTable(r, sizes, tables[i])
  }

  lemma GoodTablesJoin<K, C>(r: Realm<K, C>, sizes: set<nat>, more: set<nat>, a: seq<Sent<K>>, b: seq<Sent<K>>)
    requires GoodTables(r, sizes, a) && GoodTables(r, more, b) && sizes <= more
    ensures GoodTables(r, more, a + b)
  {
  }

  lemma NamesJoin<K>(a: seq<seq<K>>, b: seq<seq<K>>)
    requires NameOnce(a) && NameOnce(b)
    ensures NameOnce(a + b)
  {
  }

  lemma GoodTablesWithout<K, C>(r: Realm<K, C>, sizes: set<nat>, tables: seq<Sent<K>>, i: nat)
    requires GoodTables(r, sizes, tables) && i < |tables|
    ensures GoodTables(r, sizes, Without(tables, i))
  {
  }

  lemma NamesWithout<K>(gets: seq<seq<K>>, i: nat)
    requires NameOnce(gets) && i < |gets|
    ensures NameOnce(Without(gets, i))
  {
  }

  ghost predicate ExactNode<K, C>(r: Realm<K, C>, n: Holder<K, C>) {
    Exact(r.p, n.iblts, n.rows.Keys)
  }

  /** The cached tables of both nodes are exact, and so are the tables on their way. */
  ghost predicate Sound<K, C>(r: Realm<K, C>, s: Duo<K, C>) {
    && ExactNode(r, s.left) && GoodTables(r, s.right.sent, s.toLeft.tables) && NameOnce(s.toLeft.gets)
    && ExactNode(r, s.right) && GoodTables(r, s.left.sent, s.toRight.tables) && NameOnce(s.toRight.gets)
  }

  /** The content is accepted by a node that holds it already and caches tables. */
  ghost predicate Rearrives<K, C>(r: Realm<K, C>, n: Holder<K, C>, c: C) {
    r.accepts(c) && r.keyOf(c) in n.rows && n.iblts != map[]
  }

  /** In this step no content arrives at the left node again. */
  ghost predicate LeftFresh<K(!new), C(!new)>(r: Realm<K, C>, s: Duo<K, C>, s': Duo<K, C>) {
    forall c: C, out: Post<K, C> :: Receives(r, s, Ad(c), out, s') ==> !Rearrives(r, s.left, c)
  }

  ghost predicate Fresh<K(!new), C(!new)>(r: Realm<K, C>, s: Duo<K, C>, s': Duo<K, C>) {
    LeftFresh(r, s, s') && LeftFresh(r, Flip(s), Flip(s'))
  }

  /* ---------- sound nodes stay sound ---------- */

  lemma PollSound<K(!new), C(!new)>(r: Realm<K, C>, s: Duo<K, C>, out: Post<K, C>, s': Duo<K, C>)
    requires Sound(r, s) && Receives(r, s, Poll, out, s')
    ensures Sound(r, s')
  {
    var n, n' := s.left, s'.left;
    if n.asked && out != NoPost() {
      var size: nat :| SendsTable(r, n, size, n', out);
      LookupKeepsExact(r.p, n.iblts, n.rows.Keys, size);
      assert TrueTable(r, n'.sent, out.tables[0]);
    }
    GoodTablesJoin(r, n.sent, n'.sent, s.toRight.tables, out.tables);
    NamesJoin(s.toRight.gets, out.gets);
  }

  lemma TableSound<K(!new), C(!new)>(r: Realm<K, C>, s: Duo<K, C>, i: nat, out: Post<K, C>, s': Duo<K, C>)
    requires Lawful(r.p) && Sound(r, s) && Receives(r, s, Table(i), out, s')
    requires NoFalsePurity(r.p, |s.toLeft.tables[i].table|, Diff(s.toLeft.tables[i].keys, s.left.rows.Keys))
    ensures Sound(r, s') && s'.left.sent == s.left.sent
  {
    TableDecodes(r, s.left, s.toLeft.tables[i], s'.left, out, {});
    GoodTablesWithout(r, s.right.sent, s.toLeft.tables, i);
    GoodTablesJoin(r, s.left.sent, s.left.sent, s.toRight.tables, []);
    NamesJoin(s.toRight.gets, out.gets);
  }

  lemma GetSound<K(!new), C(!new)>(r: Realm<K, C>, s: Duo<K, C>, i: nat, out: Post<K, C>, s': Duo<K, C>)
    requires Sound(r, s) && Receives(r, s, Get(i), out, s')
    ensures Sound(r, s') && s'.left.sent == s.left.sent
  {
    NamesWithout(s.toLeft.gets, i);
    GoodTablesJoin(r, s.left.sent, s.left.sent, s.toRight.tables, []);
    NamesJoin(s.toRight.gets, []);
  }

  lemma AdSound<K(!new), C(!new)>(r: Realm<K, C>, s: Duo<K, C>, c: C, out: Post<K, C>, s': Duo<K, C>)
    requires Lawful(r.p) && Sound(r, s) && Receives(r, s, Ad(c), out, s') && !Rearrives(r, s.left, c)
    ensures Sound(r, s') && s'.left.sent == s.left.sent
  {
    AdKeepsExact(r, s.left, c, s'.left, out);
    GoodTablesJoin(r, s.left.sent, s.left.sent, s.toRight.tables, []);
    NamesJoin(s.toRight.gets, []);
  }

  lemma AdKeepsExact<K(!new), C(!new)>(r: Realm<K, C>, n: Holder<K, C>, c: C, n': Holder<K, C>, out: Post<K, C>)
    requires Lawful(r.p) && ExactNode(r, n) && OnAd(r, n, c, n', out) && !Rearrives(r, n, c)
    ensures ExactNode(r, n')
  {
    var keys: seq<K> :| Truncates(r, Added(r, n, c), keys, n');
    AddedKeepsExact(r, n, c);
    DroppedKeepsExact(r, Added(r, n, c), keys);
  }

  lemma AddedKeepsExact<K(!new), C(!new)>(r: Realm<K, C>, n: Holder<K, C>, c: C)
    requires Lawful(r.p) && ExactNode(r, n) && !Rearrives(r, n, c)
    ensures ExactNode(r, Added(r, n, c))
  {
    if r.accepts(c) {
      assert Added(r, n, c).rows.Keys == n.rows.Keys + {r.keyOf(c)};
      if r.keyOf(c) !in n.rows {
        AddKeepsExact(r.p, n.iblts, n.rows.Keys, r.keyOf(c));
      }
    }
  }

  lemma DroppedKeepsExact<K(!new), C(!new)>(r: Realm<K, C>, n: Holder<K, C>, keys: seq<K>)
    requires Lawful(r.p) && ExactNode(r, n) && Enumerates(keys, AllEntries(keys)) && AllEntries(keys) <= n.rows.Keys
    ensures ExactNode(r, Dropped(r, n, keys))
  {
    RemoveKeepsExact(r.p, n.iblts, n.rows.Keys, keys);
    assert Dropped(r, n, keys).rows.Keys == n.rows.Keys - AllEntries(keys);
  }

  /* ---------- every fresh step is a step of the protocol ---------- */

  /** Sound nodes, and a record of the keys missed that stays within what the tables sent could not give away. */
  ghost predicate Follows<K(!new), C(!new)>(r: Realm<K, C>, a: map<K, C>, b: map<K, C>, s: Duo<K, C>, ml: set<K>,
                                            mr: set<K>) {
    && Sound(r, s)
    && ml <= Unlisted(r.p, s.right.sent, Apart(a, b)) && mr <= Unlisted(r.p, s.left.sent, Apart(a, b))
  }

  /** A table on its way holds what its sender started with, so the open difference is part of the original one. */
  lemma TableIsFair<K(!new), C(!new)>(r: Realm<K, C>, a: map<K, C>, b: map<K, C>, s: Duo<K, C>, i: nat, ml: set<K>,
                                      mr: set<K>)
    requires Fair(r, a, b) && Convergence.Inv(WorldOf(r), a, b, PairOf(s, ml, mr)) && i < |s.toLeft.tables|
    requires TellsApart(r, a, b, s) && |s.toLeft.tables[i].table| in s.right.sent
    ensures var t := s.toLeft.tables[i];
            && NoFalsePurity(r.p, |t.table|, Diff(t.keys, s.left.rows.Keys))
            && Core(r.p, |t.table|, Diff(t.keys, s.left.rows.Keys).Keys) <= Core(r.p, |t.table|, Apart(a, b))
  {
    var t := s.toLeft.tables[i];
    TableBetween(r, a, b, s, i, ml, mr);
    PurityTurns(r.p, |t.table|, a.Keys, b.Keys);
    OpenPart(r.p, |t.table|, a.Keys, b.Keys, t.keys, s.left.rows.Keys);
    assert Diff(b.Keys, a.Keys).Keys == Apart(a, b);
  }

  lemma TableBetween<K(!new), C(!new)>(r: Realm<K, C>, a: map<K, C>, b: map<K, C>, s: Duo<K, C>, i: nat, ml: set<K>,
                                       mr: set<K>)
    requires Convergence.Inv(WorldOf(r), a, b, PairOf(s, ml, mr)) && i < |s.toLeft.tables|
    ensures b.Keys <= s.toLeft.tables[i].keys <= a.Keys + b.Keys && a.Keys <= s.left.rows.Keys <= a.Keys + b.Keys
  {
    ImageIn(Label(), s.toLeft.tables, i);
    assert Label()(s.toLeft.tables[i]) in Convergence.FlowToLeft(PairOf(s, ml, mr)).tables;
    DrawnKeys(a, b, s.left.rows);
    DrawnKeys(b, a, s.right.rows);
  }

  lemma DrawnKeys<K(!new), C(!new)>(a: map<K, C>, b: map<K, C>, rows: map<K, C>)
    requires Convergence.Drawn(a, b, rows)
    ensures rows.Keys <= a.Keys + b.Keys
  {
    forall id | id in rows ensures id in a.Keys + b.Keys {
      assert Convergence.OneOf(a, b, id, rows[id]);
    }
  }

  lemma TableFollows<K(!new), C(!new)>(r: Realm<K, C>, a: map<K, C>, b: map<K, C>, s: Duo<K, C>, i: nat,
                                       out: Post<K, C>, s': Duo<K, C>,
                                       ml: set<K>, mr: set<K>)
    returns (ml': set<K>)
    requires Fair(r, a, b) && TellsApart(r, a, b, s) && Follows(r, a, b, s, ml, mr)
    requires Convergence.Inv(WorldOf(r), a, b, PairOf(s, ml, mr))
    requires Receives(r, s, Table(i), out, s')
    ensures Follows(r, a, b, s', ml', mr) && P.LeftReceives(WorldOf(r), PairOf(s, ml, mr), PairOf(s', ml', mr))
  {
    var t := s.toLeft.tables[i];
    assert TrueTable(r, s.right.sent, t);
    TableIsFair(r, a, b, s, i, ml, mr);
    TableSound(r, s, i, out, s');
    TableRefines(r, s, i, out, s', ml, mr);
    ml' := MissedNow(r, s.left, t, ml);
    TableBetween(r, a, b, s, i, ml, mr);
    MissedAreUnlisted(r, a, b, s.left, t, s.right.sent);
  }

  lemma MissedAreUnlisted<K(!new), C(!new)>(r: Realm<K, C>, a: map<K, C>, b: map<K, C>, n: Holder<K, C>, t: Sent<K>,
                                            sizes: set<nat>)
    requires |t.table| in sizes && t.keys <= a.Keys + b.Keys && a.Keys <= n.rows.Keys
    requires Core(r.p, |t.table|, Diff(t.keys, n.rows.Keys).Keys) <= Core(r.p, |t.table|, Apart(a, b))
    ensures (t.keys - n.rows.Keys) - P.Wanted(WorldOf(r), Label()(t), n.rows.Keys) <= Unlisted(r.p, sizes, Apart(a, b))
  {
  }

  lemma UnlistedGrows<K(!new)>(p: Scheme<K>, sizes: set<nat>, more: set<nat>, d: set<K>)
    requires sizes <= more
    ensures Unlisted(p, sizes, d) <= Unlisted(p, more, d)
  {
  }

  lemma RowsReadBack<K(!new), C(!new)>(r: Realm<K, C>, a: map<K, C>, b: map<K, C>, rows: map<K, C>)
    requires ReadsBack(r, a) && ReadsBack(r, b) && Convergence.Drawn(a, b, rows)
    ensures ReadsBack(r, rows)
  {
    forall id | id in rows
      ensures r.keyOf(rows[id]) == id && r.readable(rows[id]) && r.reread(rows[id]) == rows[id]
    {
      assert Convergence.OneOf(a, b, id, rows[id]);
    }
  }

  lemma LeftFollows<K(!new), C(!new)>(r: Realm<K, C>, a: map<K, C>, b: map<K, C>, s: Duo<K, C>, m: Arrival<C>,
                                      out: Post<K, C>, s': Duo<K, C>,
                                      ml: set<K>, mr: set<K>)
    returns (ml': set<K>)
    requires Fair(r, a, b) && TellsApart(r, a, b, s) && Follows(r, a, b, s, ml, mr)
    requires Convergence.Inv(WorldOf(r), a, b, PairOf(s, ml, mr))
    requires Receives(r, s, m, out, s') && (m.Ad? ==> !Rearrives(r, s.left, m.content))
    ensures Follows(r, a, b, s', ml', mr) && P.LeftReceives(WorldOf(r), PairOf(s, ml, mr), PairOf(s', ml', mr))
  {
    ml' := ml;
    match m {
      case Poll =>
        PollSound(r, s, out, s');
        PollRefines(r, s, out, s', ml, mr);
        UnlistedGrows(r.p, s.left.sent, s'.left.sent, Apart(a, b));
      case Table(i) =>
        ml' := TableFollows(r, a, b, s, i, out, s', ml, mr);
      case Get(i) =>
        RowsReadBack(r, a, b, s.left.rows);
        GetSound(r, s, i, out, s');
        GetRefines(r, s, i, out, s', ml, mr);
      case Ad(c) =>
        AdSound(r, s, c, out, s');
        AdRefines(r, s, c, out, s', ml, mr);
    }
  }

  lemma FollowsFlips<K(!new), C(!new)>(r: Realm<K, C>, a: map<K, C>, b: map<K, C>, s: Duo<K, C>, ml: set<K>, mr: set<K>)
    requires Follows(r, a, b, s, ml, mr)
    ensures Follows(r, b, a, Flip(s), mr, ml)
  {
    assert Apart(b, a) == Apart(a, b);
  }

  lemma StepFollows<K(!new), C(!new)>(r: Realm<K, C>, a: map<K, C>, b: map<K, C>, s: Duo<K, C>, s': Duo<K, C>,
                                      ml: set<K>, mr: set<K>)
    returns (ml': set<K>, mr': set<K>)
    requires Fair(r, a, b) && TellsApart(r, a, b, s) && Follows(r, a, b, s, ml, mr)
    requires Convergence.Inv(WorldOf(r), a, b, PairOf(s, ml, mr))
    requires Step(r, s, s') && Fresh(r, s, s')
    ensures Follows(r, a, b, s', ml', mr') && P.Step(WorldOf(r), PairOf(s, ml, mr), PairOf(s', ml', mr'))
  {
    ml', mr' := ml, mr;
    if LeftReceives(r, s, s') {
      var m: Arrival<C>, out: Post<K, C> :| Receives(r, s, m, out, s');
      ml' := LeftFollows(r, a, b, s, m, out, s', ml, mr);
    } else if LeftReceives(r, Flip(s), Flip(s')) {
      var m: Arrival<C>, out: Post<K, C> :| Receives(r, Flip(s), m, out, Flip(s'));
      FairFlips(r, a, b);
      TellsApartFlips(r, a, b, s);
      FollowsFlips(r, a, b, s, ml, mr);
      assert P.Swap(PairOf(s, ml, mr)) == PairOf(Flip(s), mr, ml);
      mr' := LeftFollows(r, b, a, Flip(s), m, out, Flip(s'), mr, ml);
      FollowsFlips(r, b, a, Flip(s'), mr', ml);
      assert P.Swap(PairOf(s', ml, mr')) == PairOf(Flip(s'), mr', ml);
    }
  }

  /* ---------- runs ---------- */

  ghost predicate FreshUpTo<K(!new), C(!new)>(r: Realm<K, C>, states: seq<Duo<K, C>>, i: nat) {
    forall j :: 0 <= j < i && j + 1 < |states| ==> Fresh(r, states[j], states[j + 1])
  }

  ghost predicate Mirrors<K(!new), C(!new)>(s: Duo<K, C>, t: P.Pair<K, C>) {
    t == PairOf(s, t.left.missed, t.right.missed)
  }

  lemma BeginsAsProtocol<K(!new), C(!new)>(r: Realm<K, C>, a: map<K, C>, b: map<K, C>, s: Duo<K, C>)
    requires Begins(r, a, b, s)
    ensures PairOf(s, {}, {}) == P.Pair(Convergence.Starting(a), Convergence.Starting(b), P.Nothing(), P.Nothing())
    ensures Follows(r, a, b, s, {}, {})
  {
    NoPostIsNothing<K, C>();
  }

  ghost predicate SentWithin<K, C>(s: Duo<K, C>, t: Duo<K, C>) {
    s.left.sent <= t.left.sent && s.right.sent <= t.right.sent
  }

  lemma WithinWithin<K, C>(s: Duo<K, C>, t: Duo<K, C>, u: Duo<K, C>)
    requires SentWithin(s, t) && SentWithin(t, u)
    ensures SentWithin(s, u)
  {
  }

  ghost predicate SentKept<K, C>(states: seq<Duo<K, C>>, i: nat) {
    i + 1 < |states| ==> SentWithin(states[i], states[i + 1])
  }

  lemma StepsKeepSent<K(!new), C(!new)>(r: Realm<K, C>, states: seq<Duo<K, C>>)
    requires Path(r, states)
    ensures forall i: nat :: SentKept(states, i)
  {
    forall i: nat | i + 1 < |states| ensures SentKept(states, i) {
      assert Step(r, states[i], states[i + 1]);
      SentGrows(r, states[i], states[i + 1]);
    }
  }

  lemma {:induction false} SentOnly<K, C>(states: seq<Duo<K, C>>, i: nat, k: nat)
    requires k <= i < |states| && forall j: nat :: SentKept(states, j)
    ensures SentWithin(states[k], states[i])
  {
    if k < i {
      SentOnly(states, i - 1, k);
      assert SentKept(states, i - 1);
      WithinWithin(states[k], states[i - 1], states[i]);
    }
  }

  lemma SentBefore<K(!new), C(!new)>(r: Realm<K, C>, a: map<K, C>, b: map<K, C>, states: seq<Duo<K, C>>, i: nat, k: nat)
    requires Path(r, states) && k <= i < |states| && TellsApart(r, a, b, states[i])
    ensures TellsApart(r, a, b, states[k])
  {
    StepsKeepSent(r, states);
    SentOnly(states, i, k);
    assert SentWithin(states[k], states[i]);
  }

  /** A run of the protocol goes along with the first i steps of an exchange. */
  ghost predicate Traces<K(!new), C(!new)>(r: Realm<K, C>, a: map<K, C>, b: map<K, C>, states: seq<Duo<K, C>>, i: nat,
                                           run: seq<P.Pair<K, C>>)
    requires i < |states|
  {
    && |run| == i + 1 && Convergence.Run(WorldOf(r), a, b, run)
    && (forall j :: 0 <= j <= i ==> Mirrors(states[j], run[j]))
    && Follows(r, a, b, states[i], run[i].left.missed, run[i].right.missed)
  }

  /** A fresh exchange is a run of the protocol, and both nodes stay sound. */
  lemma Simulates<K(!new), C(!new)>(r: Realm<K, C>, a: map<K, C>, b: map<K, C>, states: seq<Duo<K, C>>, i: nat)
    returns (run: seq<P.Pair<K, C>>)
    requires Fair(r, a, b) && Run(r, a, b, states) && i < |states| && TellsApart(r, a, b, states[i])
    requires FreshUpTo(r, states, i)
    ensures |run| == i + 1 && Convergence.Run(WorldOf(r), a, b, run)
    ensures forall j :: 0 <= j <= i ==> Mirrors(states[j], run[j])
    ensures Follows(r, a, b, states[i], run[i].left.missed, run[i].right.missed)
  {
    run := TraceOf(r, a, b, states, i, i);
  }

  lemma {:induction false} TraceOf<K(!new), C(!new)>(r: Realm<K, C>, a: map<K, C>, b: map<K, C>,
                                                     states: seq<Duo<K, C>>, i: nat, k: nat)
    returns (run: seq<P.Pair<K, C>>)
    requires Fair(r, a, b) && Run(r, a, b, states) && k <= i < |states| && TellsApart(r, a, b, states[i])
    requires FreshUpTo(r, states, i)
    ensures Traces(r, a, b, states, k, run)
  {
    if k == 0 {
      run := FirstTrace(r, a, b, states);
    } else {
      var before := TraceOf(r, a, b, states, i, k - 1);
      run := LongerTrace(r, a, b, states, i, k, before);
    }
  }

  lemma FirstTrace<K(!new), C(!new)>(r: Realm<K, C>, a: map<K, C>, b: map<K, C>, states: seq<Duo<K, C>>)
    returns (run: seq<P.Pair<K, C>>)
    requires Run(r, a, b, states)
    ensures Traces(r, a, b, states, 0, run)
  {
    BeginsAsProtocol(r, a, b, states[0]);
    run := [PairOf(states[0], {}, {})];
  }

  lemma LongerTrace<K(!new), C(!new)>(r: Realm<K, C>, a: map<K, C>, b: map<K, C>, states: seq<Duo<K, C>>, i: nat,
                                      k: nat, before: seq<P.Pair<K, C>>)
    returns (run: seq<P.Pair<K, C>>)
    requires Fair(r, a, b) && Run(r, a, b, states) && 0 < k <= i < |states| && TellsApart(r, a, b, states[i])
    requires FreshUpTo(r, states, i) && Traces(r, a, b, states, k - 1, before)
    ensures Traces(r, a, b, states, k, run)
  {
    SentBefore(r, a, b, states, i, k - 1);
    var t := SimulatesNext(r, a, b, states, k, before);
    run := Extended(WorldOf(r), a, b, before, t);
  }

  lemma SimulatesNext<K(!new), C(!new)>(r: Realm<K, C>, a: map<K, C>, b: map<K, C>, states: seq<Duo<K, C>>, k: nat,
                                        run: seq<P.Pair<K, C>>)
    returns (t: P.Pair<K, C>)
    requires Fair(r, a, b) && Run(r, a, b, states) && 0 < k < |states| && TellsApart(r, a, b, states[k - 1])
    requires Fresh(r, states[k - 1], states[k])
    requires |run| == k && Convergence.Run(WorldOf(r), a, b, run) && Mirrors(states[k - 1], run[k - 1])
    requires Follows(r, a, b, states[k - 1], run[k - 1].left.missed, run[k - 1].right.missed)
    ensures P.Step(WorldOf(r), run[k - 1], t) && Mirrors(states[k], t)
    ensures Follows(r, a, b, states[k], t.left.missed, t.right.missed)
  {
    Convergence.RunKeeps(WorldOf(r), a, b, run, k - 1);
    assert Step(r, states[k - 1], states[k]);
    var ml, mr := StepFollows(r, a, b, states[k - 1], states[k], run[k - 1].left.missed, run[k - 1].right.missed);
    t := PairOf(states[k], ml, mr);
  }

  lemma Extended<K(!new), C(!new)>(w: P.World<K, C>, a: map<K, C>, b: map<K, C>, run: seq<P.Pair<K, C>>,
                                              t: P.Pair<K, C>)
    returns (more: seq<P.Pair<K, C>>)
    requires Convergence.Run(w, a, b, run) && P.Step(w, run[|run| - 1], t)
    ensures more == run + [t] && Convergence.Run(w, a, b, more)
  {
    more := run + [t];
  }

  /** The left node holds every row it is asked for. */
  ghost predicate LeftCanAnswer<K, C>(s: Duo<K, C>) {
    forall j :: 0 <= j < |s.toLeft.gets| ==> AllEntries(s.toLeft.gets[j]) <= s.left.rows.Keys
  }

  /**
   In a fresh exchange the cached tables of both nodes are exact, and no node is asked for a row that it does not
   hold.
   */
  lemma NoRequestFails<K(!new), C(!new)>(r: Realm<K, C>, a: map<K, C>, b: map<K, C>, states: seq<Duo<K, C>>, i: nat)
    requires Fair(r, a, b) && Run(r, a, b, states) && i < |states| && TellsApart(r, a, b, states[i])
    requires FreshUpTo(r, states, i)
    ensures Sound(r, states[i])
    ensures LeftCanAnswer(states[i]) && LeftCanAnswer(Flip(states[i]))
  {
    var run := Simulates(r, a, b, states, i);
    Convergence.NoRequestFails(WorldOf(r), a, b, run, i);
    assert Mirrors(states[i], run[i]);
    GetsCovered(states[i].toLeft.gets, states[i].left.rows.Keys);
    GetsCovered(states[i].toRight.gets, states[i].right.rows.Keys);
  }

  lemma GetsCovered<K(!new)>(gets: seq<seq<K>>, held: set<K>)
    requires forall ids :: ids in Images(Ids(), gets) ==> ids <= held
    ensures forall j :: 0 <= j < |gets| ==> AllEntries(gets[j]) <= held
  {
    forall j | 0 <= j < |gets| ensures AllEntries(gets[j]) <= held {
      ImageIn(Ids(), gets, j);
      assert Ids()(gets[j]) == AllEntries(gets[j]);
    }
  }

  /** In a fresh exchange no request names a key that the requester held when it decoded the table, or any key twice. */
  lemma RequestsAreMissing<K(!new), C(!new)>(r: Realm<K, C>, a: map<K, C>, b: map<K, C>, states: seq<Duo<K, C>>, i: nat,
                                             j: nat, out: Post<K, C>, s': Duo<K, C>)
    requires Fair(r, a, b) && Run(r, a, b, states) && i < |states| && TellsApart(r, a, b, states[i])
    requires FreshUpTo(r, states, i) && Receives(r, states[i], Table(j), out, s')
    ensures NameOnce(out.gets)
    ensures forall k :: 0 <= k < |out.gets| ==> AllEntries(out.gets[k]) !! states[i].left.rows.Keys
  {
    var run := Simulates(r, a, b, states, i);
    Convergence.RunKeeps(WorldOf(r), a, b, run, i);
    var s := states[i];
    assert Mirrors(s, run[i]) && TrueTable(r, s.right.sent, s.toLeft.tables[j]);
    TableIsFair(r, a, b, s, j, run[i].left.missed, run[i].right.missed);
    TableDecodes(r, s.left, s.toLeft.tables[j], s'.left, out, {});
    NothingHeldRequested(r, s.left, s.toLeft.tables[j], s'.left, out);
  }

  lemma NothingHeldRequested<K(!new), C(!new)>(r: Realm<K, C>, n: Holder<K, C>, t: Sent<K>, n': Holder<K, C>,
                                               out: Post<K, C>)
    requires Lawful(r.p) && ExactNode(r, n) && t.table == TableOf(r.p, |t.table|, t.keys)
    requires NoFalsePurity(r.p, |t.table|, Diff(t.keys, n.rows.Keys)) && OnTable(r, n, t.table, n', out)
    ensures forall k :: 0 <= k < |out.gets| ==> AllEntries(out.gets[k]) !! n.rows.Keys
  {
    var entries: seq<Entry<K>>, clean: bool :| Decodes(r, n, t.table, entries, clean, n', out);
    RequestDecoded(r, n, t, entries, clean, n', out);
  }

  ghost predicate Silent<K, C>(s: Duo<K, C>) {
    s.toLeft == NoPost() && s.toRight == NoPost()
  }

  /** The node holds the rows of both nodes, except some that tables of the given sizes cannot give away. */
  ghost predicate HoldsAll<K(!new), C(!new)>(r: Realm<K, C>, a: map<K, C>, b: map<K, C>, n: Holder<K, C>,
                                             sizes: set<nat>) {
    (a.Keys + b.Keys) - Unlisted(r.p, sizes, Apart(a, b)) <= n.rows.Keys <= a.Keys + b.Keys
  }

  /**
   When nothing is on its way any more after a fresh exchange, a node that was sent tables holds the rows of both,
   except keys in the core of their difference for a size that was sent.
   */
  lemma SilenceMeansAgreement<K(!new), C(!new)>(r: Realm<K, C>, a: map<K, C>, b: map<K, C>, states: seq<Duo<K, C>>,
                                                i: nat)
    requires Fair(r, a, b) && Run(r, a, b, states) && i < |states| && TellsApart(r, a, b, states[i])
    requires FreshUpTo(r, states, i) && Silent(states[i])
    ensures states[i].left.rows.Keys <= a.Keys + b.Keys && states[i].right.rows.Keys <= a.Keys + b.Keys
    ensures states[i].right.sent != {} ==> HoldsAll(r, a, b, states[i].left, states[i].right.sent)
    ensures states[i].left.sent != {} ==> HoldsAll(r, a, b, states[i].right, states[i].left.sent)
  {
    var run := Simulates(r, a, b, states, i);
    assert Mirrors(states[i], run[i]);
    NoPostIsNothing<K, C>();
    Convergence.SilenceMeansAgreement(WorldOf(r), a, b, run, i);
  }

  /* ---------- no fresh exchange gets stuck ---------- */

  lemma TableCanBeHandled<K(!new), C(!new)>(r: Realm<K, C>, n: Holder<K, C>, t: Sent<K>)
    returns (n': Holder<K, C>, out: Post<K, C>)
    requires Lawful(r.p) && ExactNode(r, n) && 0 < |t.table| && t.table == TableOf(r.p, |t.table|, t.keys)
    requires NoFalsePurity(r.p, |t.table|, Diff(t.keys, n.rows.Keys))
    ensures OnTable(r, n, t.table, n', out)
  {
    var iblts := Looked(r.p, n.iblts, n.rows.Keys, |t.table|);
    LookupKeepsExact(r.p, n.iblts, n.rows.Keys, |t.table|);
    TablesSubtract(r.p, |t.table|, t.keys, n.rows.Keys);
    var entries, clean := ListingEnds(r.p, Subtracted(r.p, t.table, iblts[|t.table|]), Diff(t.keys, n.rows.Keys));
    var request := RequestOf(entries, |entries|);
    n', out := n.(iblts := iblts), if request == [] then NoPost() else NoPost<K, C>().(gets := [request]);
    assert Decodes(r, n, t.table, entries, clean, n', out);
  }

  lemma AdCanBeHandled<K(!new), C(!new)>(r: Realm<K, C>, n: Holder<K, C>, c: C) returns (n': Holder<K, C>)
    requires r.accepts(c) ==> r.readable(c)
    ensures OnAd(r, n, c, n', NoPost())
  {
    n' := Dropped(r, Added(r, n, c), []);
    assert Truncates(r, Added(r, n, c), [], n');
  }

  lemma PollCanBeHandled<K(!new), C(!new)>(r: Realm<K, C>, n: Holder<K, C>) returns (n': Holder<K, C>, out: Post<K, C>)
    ensures OnPoll(r, n, n', out)
  {
    n' := n.(asked := !n.asked);
    out := if n.asked then NoPost() else NoPost<K, C>().(polls := 1);
  }

  lemma LeftCanReceive<K(!new), C(!new)>(r: Realm<K, C>, a: map<K, C>, b: map<K, C>, s: Duo<K, C>, ml: set<K>,
                                         mr: set<K>)
    requires Fair(r, a, b) && TellsApart(r, a, b, s) && Sound(r, s) &&
             Convergence.Inv(WorldOf(r), a, b, PairOf(s, ml, mr)) &&
             s.toLeft != NoPost()
    requires LeftCanAnswer(s)
    ensures exists s' :: LeftReceives(r, s, s')
  {
    var m: Arrival<C>, n: Holder<K, C>, rest: Post<K, C>, out: Post<K, C> := Poll, s.left, s.toLeft, NoPost();
    if s.toLeft.polls > 0 {
      rest := rest.(polls := rest.polls - 1);
      n, out := PollCanBeHandled(r, n);
    } else if s.toLeft.tables != [] {
      assert TrueTable(r, s.right.sent, s.toLeft.tables[0]);
      TableIsFair(r, a, b, s, 0, ml, mr);
      m, rest := Table(0), rest.(tables := Without(rest.tables, 0));
      n, out := TableCanBeHandled(r, n, s.toLeft.tables[0]);
    } else if s.toLeft.gets != [] {
      var ids := s.toLeft.gets[0];
      forall i | 0 <= i < |ids| ensures ids[i] in n.rows {
        EntriesHold(ids, |ids|, i);
      }
      m, rest := Get(0), rest.(gets := Without(rest.gets, 0));
      out := NoPost<K, C>().(ads := multiset(Answers(r.reread, n.rows, ids)));
    } else {
      var c :| c in s.toLeft.ads;
      m, rest := Ad(c), rest.(ads := rest.ads - multiset{c});
      assert c in Convergence.FlowToLeft(PairOf(s, ml, mr)).ads;
      assert Convergence.OneOf(a, b, r.keyOf(c), c);
      n := AdCanBeHandled(r, n, c);
    }
    var s' := Duo(n, s.right, rest, Join(s.toRight, out));
    assert Receives(r, s, m, out, s');
    assert LeftReceives(r, s, s');
  }

  /**
   In a fresh exchange, as long as a message is on its way one can be delivered; so an exchange that rests is silent.
   */
  lemma NotStuck<K(!new), C(!new)>(r: Realm<K, C>, a: map<K, C>, b: map<K, C>, states: seq<Duo<K, C>>, i: nat)
    requires Fair(r, a, b) && Run(r, a, b, states) && i < |states| && TellsApart(r, a, b, states[i])
    requires FreshUpTo(r, states, i) && !Silent(states[i])
    ensures exists s' :: Delivers(r, states[i], s')
  {
    var run := Simulates(r, a, b, states, i);
    Convergence.RunKeeps(WorldOf(r), a, b, run, i);
    NoRequestFails(r, a, b, states, i);
    var s, ml, mr := states[i], run[i].left.missed, run[i].right.missed;
    assert Mirrors(s, run[i]);
    if s.toLeft != NoPost() {
      LeftCanReceive(r, a, b, s, ml, mr);
      var s' :| LeftReceives(r, s, s');
      assert Delivers(r, s, s');
    } else {
      FairFlips(r, a, b);
      TellsApartFlips(r, a, b, s);
      assert P.Swap(PairOf(s, ml, mr)) == PairOf(Flip(s), mr, ml);
      LeftCanReceive(r, b, a, Flip(s), mr, ml);
      var s' :| LeftReceives(r, Flip(s), s');
      assert Flip(Flip(s')) == s';
      assert Delivers(r, s, Flip(s'));
    }
  }

  /* ---------- exchanges without overlap are fresh ---------- */

  /** Nothing that flows from the right node to the left one is on its way. */
  ghost predicate Idle<K, C>(s: Duo<K, C>) {
    s.toLeft.tables == [] && s.toRight.gets == [] && s.toLeft.ads == multiset{}
  }

  /** In this step no node sends a table while something of an earlier one is on its way. */
  ghost predicate SendsWhenIdle<K, C>(s: Duo<K, C>, s': Duo<K, C>) {
    && (|s'.toRight.tables| > |s.toRight.tables| ==> Idle(Flip(s)))
    && (|s'.toLeft.tables| > |s.toLeft.tables| ==> Idle(s))
  }

  ghost predicate NoOverlap<K, C>(states: seq<Duo<K, C>>) {
    forall j :: 0 <= j < |states| - 1 ==> SendsWhenIdle(states[j], states[j + 1])
  }

  lemma ImagesSize<A, B>(f: A -> B, s: seq<A>)
    ensures |Images(f, s)| == |s| && (s == [] ==> Images(f, s) == multiset{})
  {
  }

  lemma IdleMirrored<K(!new), C(!new)>(s: Duo<K, C>, s': Duo<K, C>, t: P.Pair<K, C>, t': P.Pair<K, C>)
    requires SendsWhenIdle(s, s') && Mirrors(s, t) && Mirrors(s', t')
    ensures OneExchange.SendsWhenIdle(t, t')
  {
    ImagesSize(Label(), s.toLeft.tables);
    ImagesSize(Label(), s.toRight.tables);
    ImagesSize(Label(), s'.toLeft.tables);
    ImagesSize(Label(), s'.toRight.tables);
    ImagesSize(Ids(), s.toLeft.gets);
    ImagesSize(Ids(), s.toRight.gets);
  }

  /** In an exchange without overlap no content arrives at a node that holds it. */
  lemma {:induction false} NoOverlapIsFresh<K(!new), C(!new)>(r: Realm<K, C>, a: map<K, C>, b: map<K, C>,
                                                              states: seq<Duo<K, C>>, i: nat)
    requires Fair(r, a, b) && Run(r, a, b, states) && i < |states| && TellsApart(r, a, b, states[i])
    requires NoOverlap(states)
    ensures FreshUpTo(r, states, i)
  {
    if i > 0 {
      SentBefore(r, a, b, states, i, i - 1);
      NoOverlapIsFresh(r, a, b, states, i - 1);
      NextIsFresh(r, a, b, states, i - 1);
    }
  }

  lemma NextIsFresh<K(!new), C(!new)>(r: Realm<K, C>, a: map<K, C>, b: map<K, C>, states: seq<Duo<K, C>>, i: nat)
    requires Fair(r, a, b) && Run(r, a, b, states) && i + 1 < |states| && TellsApart(r, a, b, states[i])
    requires NoOverlap(states) && FreshUpTo(r, states, i)
    ensures Fresh(r, states[i], states[i + 1])
  {
    var run := Simulates(r, a, b, states, i);
    forall j | 0 <= j < |run| - 1 ensures OneExchange.SendsWhenIdle(run[j], run[j + 1]) {
      assert SendsWhenIdle(states[j], states[j + 1]);
      IdleMirrored(states[j], states[j + 1], run[j], run[j + 1]);
    }
    OneExchange.ContentsAreFresh(WorldOf(r), a, b, run, i);
    assert Mirrors(states[i], run[i]);
    NewContentIsFresh(r, states[i], states[i + 1]);
    NewContentIsFresh(r, Flip(states[i]), Flip(states[i + 1]));
  }

  lemma NewContentIsFresh<K(!new), C(!new)>(r: Realm<K, C>, s: Duo<K, C>, s': Duo<K, C>)
    requires forall c :: c in s.toLeft.ads ==> r.keyOf(c) !in s.left.rows
    ensures LeftFresh(r, s, s')
  {
  }

  /* ---------- the result ---------- */

  /** Both nodes have sent tables, and tables of these sizes give the whole difference away. */
  ghost predicate AllGivenAway<K(!new), C(!new)>(r: Realm<K, C>, a: map<K, C>, b: map<K, C>, s: Duo<K, C>) {
    && s.left.sent != {} && s.right.sent != {}
    && forall m :: m in s.left.sent + s.right.sent ==> Core(r.p, m, Apart(a, b)) == {}
  }

  /** Both nodes hold exactly the rows of both. */
  ghost predicate Agreed<K, C>(a: map<K, C>, b: map<K, C>, s: Duo<K, C>) {
    s.left.rows.Keys == s.right.rows.Keys == a.Keys + b.Keys
  }

  /**
   Fair nodes, whatever the interleaving of deliveries and polls, as long as no table is sent while something of the
   previous one is on its way: no request fails, the cached tables are exact, and when both have sent tables that give
   the difference away and nothing is on its way any more, both hold exactly the rows of both.
   */
  lemma FairNodesAgree<K(!new), C(!new)>(r: Realm<K, C>, a: map<K, C>, b: map<K, C>, states: seq<Duo<K, C>>, i: nat)
    requires Fair(r, a, b) && Run(r, a, b, states) && i < |states| && TellsApart(r, a, b, states[i])
    requires NoOverlap(states)
    ensures Sound(r, states[i]) && LeftCanAnswer(states[i]) && LeftCanAnswer(Flip(states[i]))
    ensures Silent(states[i]) && AllGivenAway(r, a, b, states[i]) ==> Agreed(a, b, states[i])
  {
    NoOverlapIsFresh(r, a, b, states, i);
    NoRequestFails(r, a, b, states, i);
    if Silent(states[i]) && AllGivenAway(r, a, b, states[i]) {
      SilenceMeansAgreement(r, a, b, states, i);
      NothingUnlisted(r, a, b, states[i].left, states[i].right.sent);
      NothingUnlisted(r, a, b, states[i].right, states[i].left.sent);
    }
  }

  lemma NothingUnlisted<K(!new), C(!new)>(r: Realm<K, C>, a: map<K, C>, b: map<K, C>, n: Holder<K, C>, sizes: set<nat>)
    requires HoldsAll(r, a, b, n, sizes) && forall m :: m in sizes ==> Core(r.p, m, Apart(a, b)) == {}
    ensures n.rows.Keys == a.Keys + b.Keys
  {
    assert Unlisted(r.p, sizes, Apart(a, b)) == {};
  }
}
