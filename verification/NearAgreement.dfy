/**
 Where exchanges with overlap lead: if the tables that are decoded are near and give everything away, the nodes end up
 with the rows of both, although contents may be requested and arrive more than once.
 */
module NearAgreement {
  import opened Wrappers
  import opened Algebra
  import opened Peeling
  import opened Listing
  import opened Caches
  import opened Exchange
  import opened Refinement
  import opened Simulation
  import opened NearTables

  /* ---------- nothing a table tells is lost ---------- */

  /** The left node has the row, or it is on its way. */
  ghost predicate Coming<K(!new), C(!new)>(r: Realm<K, C>, s: Duo<K, C>, id: K) {
    || id in s.left.rows
    || (exists t :: t in s.toLeft.tables && id in t.keys)
    || (exists ids :: ids in s.toRight.gets && id in AllEntries(ids))
    || (exists c :: c in s.toLeft.ads && r.keyOf(c) == id)
  }

  /** The right node still has its rows b, and if it has sent a table they are with the left node or on their way. */
  ghost predicate LeftServed<K(!new), C(!new)>(r: Realm<K, C>, b: map<K, C>, s: Duo<K, C>) {
    b.Keys <= s.right.rows.Keys && (s.right.sent != {} ==> forall id :: id in b ==> Coming(r, s, id))
  }

  ghost predicate Served<K(!new), C(!new)>(r: Realm<K, C>, a: map<K, C>, b: map<K, C>, s: Duo<K, C>) {
    LeftServed(r, b, s) && LeftServed(r, a, Flip(s))
  }

  lemma OthersStay<T>(s: seq<T>, i: nat, x: T)
    requires i < |s| && x in s && x != s[i]
    ensures x in Without(s, i)
  {
    var j :| 0 <= j < |s| && s[j] == x;
    assert Without(s, i)[if j < i then j else j - 1] == x;
  }

  /** The tables are near, and no key with different counts is in the core. */
  ghost predicate Clear<K(!new), C(!new)>(r: Realm<K, C>, n: Holder<K, C>, t: Sent<K>) {
    var iblts := Looked(r.p, n.iblts, n.rows.Keys, |t.table|);
    && Near(r, n, t)
    && forall d, e :: |t.table| in iblts && Explains(r.p, t.table, t.keys, d) &&
                      Explains(r.p, iblts[|t.table|], n.rows.Keys, e) ==>
                        Core(r.p, |t.table|, Gap(t.keys, d, n.rows.Keys, e).Keys) == {}
  }

  /** A clear table makes a node request everything it does not hold. */
  lemma ClearDecoded<K(!new), C(!new)>(r: Realm<K, C>, n: Holder<K, C>, t: Sent<K>, own: Table<K>,
                                       entries: seq<Entry<K>>, clean: bool)
    requires Lawful(r.p) && Explained(r.p, t.table, t.keys) && Explained(r.p, own, n.rows.Keys) && Clear(r, n, t)
    requires var iblts := Looked(r.p, n.iblts, n.rows.Keys, |t.table|);
             |t.table| in iblts && own == iblts[|t.table|] && |own| == |t.table|
    requires Lists(r.p, Subtracted(r.p, t.table, own), entries, clean)
    ensures t.keys - n.rows.Keys <= AllEntries(RequestOf(entries, |entries|))
  {
    var d :| Explains(r.p, t.table, t.keys, d);
    var e :| Explains(r.p, own, n.rows.Keys, e);
    var net := Gap(t.keys, d, n.rows.Keys, e);
    assert Close(r.p, |t.table|, t.keys, d, n.rows.Keys, e) && Core(r.p, |t.table|, net.Keys) == {};
    CloseRequest(r.p, |t.table|, t.keys, d, n.rows.Keys, e, entries, clean);
    MissingIsOneMore(t.keys, d, n.rows.Keys, e);
  }

  lemma MissingIsOneMore<K>(a: set<K>, d: Net<K>, b: set<K>, e: Net<K>)
    requires Positive(d) && Positive(e) && e.Keys <= b && SignedSet(Gap(a, d, b, e))
    ensures a - b <= OneMore(Gap(a, d, b, e))
  {
    forall key | key in a - b ensures key in OneMore(Gap(a, d, b, e)) {
      assert Times(WithSurplus(b, e), key) == 0 && Times(WithSurplus(a, d), key) >= 1;
      assert key in Gap(a, d, b, e);
    }
  }

  lemma ClearRequest<K(!new), C(!new)>(r: Realm<K, C>, n: Holder<K, C>, t: Sent<K>, n': Holder<K, C>, out: Post<K, C>)
    requires Lawful(r.p) && CachesExplained(r, n) && Explained(r.p, t.table, t.keys) && Clear(r, n, t)
    requires OnTable(r, n, t.table, n', out)
    ensures n' == n.(iblts := n'.iblts)
    ensures forall id :: id in t.keys && id !in n.rows ==> exists ids :: ids in out.gets && id in AllEntries(ids)
  {
    var entries: seq<Entry<K>>, clean: bool :| Decodes(r, n, t.table, entries, clean, n', out);
    LookupExplained(r, n, |t.table|);
    ClearDecoded(r, n, t, n'.iblts[|t.table|], entries, clean);
    var request := RequestOf(entries, |entries|);
    forall id | id in t.keys && id !in n.rows ensures exists ids :: ids in out.gets && id in AllEntries(ids) {
      assert id in AllEntries(request);
      assert request in out.gets;
    }
  }

  /* ---------- steps ---------- */

  lemma PollServes<K(!new), C(!new)>(r: Realm<K, C>, a: map<K, C>, b: map<K, C>, s: Duo<K, C>, out: Post<K, C>,
                                     s': Duo<K, C>)
    requires Served(r, a, b, s) && Receives(r, s, Poll, out, s')
    ensures Served(r, a, b, s')
  {
    forall id | id in b && s.right.sent != {} ensures Coming(r, s', id) {
      assert Coming(r, s, id);
    }
    PollServesOther(r, a, s, out, s');
  }

  lemma PollServesOther<K(!new), C(!new)>(r: Realm<K, C>, a: map<K, C>, s: Duo<K, C>, out: Post<K, C>, s': Duo<K, C>)
    requires LeftServed(r, a, Flip(s)) && Receives(r, s, Poll, out, s')
    ensures LeftServed(r, a, Flip(s'))
  {
    if s.left.asked && out != NoPost() {
      var size: nat :| SendsTable(r, s.left, size, s'.left, out);
      assert out.tables[0] in s'.toRight.tables;
    } else {
      assert s'.left.sent == s.left.sent && s'.toRight.tables == s.toRight.tables && s'.toRight.ads == s.toRight.ads;
      forall id | id in a && s.left.sent != {} ensures Coming(r, Flip(s'), id) {
        assert Coming(r, Flip(s), id);
      }
    }
  }

  lemma TableServes<K(!new), C(!new)>(r: Realm<K, C>, a: map<K, C>, b: map<K, C>, s: Duo<K, C>, i: nat, out: Post<K, C>,
                                      s': Duo<K, C>)
    requires Lawful(r.p) && Served(r, a, b, s) && Receives(r, s, Table(i), out, s')
    requires CachesExplained(r, s.left) && Clear(r, s.left, s.toLeft.tables[i])
    requires Explained(r.p, s.toLeft.tables[i].table, s.toLeft.tables[i].keys)
    ensures Served(r, a, b, s')
  {
    ClearRequest(r, s.left, s.toLeft.tables[i], s'.left, out);
    forall id | id in b && s.right.sent != {} ensures Coming(r, s', id) {
      assert Coming(r, s, id);
      TableKeepsComing(r, s, i, out, s', id);
    }
    TableServesOther(r, a, s, i, out, s');
  }

  lemma TableKeepsComing<K(!new), C(!new)>(r: Realm<K, C>, s: Duo<K, C>, i: nat, out: Post<K, C>, s': Duo<K, C>, id: K)
    requires Receives(r, s, Table(i), out, s') && Coming(r, s, id) && s'.left.rows == s.left.rows
    requires forall id :: id in s.toLeft.tables[i].keys && id !in s.left.rows ==>
                            exists ids :: ids in out.gets && id in AllEntries(ids)
    ensures Coming(r, s', id)
  {
    if id in s.toLeft.tables[i].keys && id !in s.left.rows {
      var ids :| ids in out.gets && id in AllEntries(ids);
      assert ids in s'.toRight.gets;
    } else if t :| t in s.toLeft.tables && id in t.keys {
      if id !in s.left.rows {
        OthersStay(s.toLeft.tables, i, t);
      }
    } else if ids :| ids in s.toRight.gets && id in AllEntries(ids) {
      assert ids in s'.toRight.gets;
    }
  }

  lemma TableServesOther<K(!new), C(!new)>(r: Realm<K, C>, a: map<K, C>, s: Duo<K, C>, i: nat, out: Post<K, C>,
                                           s': Duo<K, C>)
    requires LeftServed(r, a, Flip(s)) && Receives(r, s, Table(i), out, s')
    ensures LeftServed(r, a, Flip(s'))
  {
    assert s'.toRight.tables == s.toRight.tables && s'.toRight.ads == s.toRight.ads;
    forall id | id in a && s.left.sent != {} ensures Coming(r, Flip(s'), id) {
      assert Coming(r, Flip(s), id);
    }
  }

  lemma GetServes<K(!new), C(!new)>(r: Realm<K, C>, a: map<K, C>, b: map<K, C>, s: Duo<K, C>, i: nat, out: Post<K, C>,
                                    s': Duo<K, C>)
    requires Served(r, a, b, s) && Receives(r, s, Get(i), out, s') && ReadsBack(r, s.left.rows)
    ensures Served(r, a, b, s')
  {
    assert s'.toRight.gets == s.toRight.gets && s'.toRight.tables == s.toRight.tables;
    forall id | id in b && s.right.sent != {} ensures Coming(r, s', id) {
      assert Coming(r, s, id);
    }
    forall id | id in a && s.left.sent != {} ensures Coming(r, Flip(s'), id) {
      assert Coming(r, Flip(s), id);
      GetKeepsComing(r, s, i, out, s', id);
    }
  }

  lemma GetKeepsComing<K(!new), C(!new)>(r: Realm<K, C>, s: Duo<K, C>, i: nat, out: Post<K, C>, s': Duo<K, C>, id: K)
    requires Receives(r, s, Get(i), out, s') && ReadsBack(r, s.left.rows) && Coming(r, Flip(s), id)
    requires s'.toRight.tables == s.toRight.tables
    ensures Coming(r, Flip(s'), id)
  {
    var ids := s.toLeft.gets[i];
    if id in AllEntries(ids) {
      var j := EntryAt(ids, |ids|, id);
      var answers := Answers(r.reread, s.left.rows, ids);
      assert answers[j] in out.ads && r.keyOf(answers[j]) == id;
      assert answers[j] in s'.toRight.ads;
    } else if other :| other in s.toLeft.gets && id in AllEntries(other) {
      OthersStay(s.toLeft.gets, i, other);
    } else if c :| c in s.toRight.ads && r.keyOf(c) == id {
      assert c in s'.toRight.ads;
    }
  }

  lemma AdServes<K(!new), C(!new)>(r: Realm<K, C>, a: map<K, C>, b: map<K, C>, s: Duo<K, C>, c: C, out: Post<K, C>,
                                   s': Duo<K, C>)
    requires Served(r, a, b, s) && Receives(r, s, Ad(c), out, s') && s'.left.sent == s.left.sent
    requires s'.left.rows == s.left.rows[r.keyOf(c) := c]
    ensures Served(r, a, b, s')
  {
    assert s'.toRight == s.toRight;
    forall id | id in b && s.right.sent != {} ensures Coming(r, s', id) {
      assert Coming(r, s, id);
      if d :| d in s.toLeft.ads && r.keyOf(d) == id {
        assert d == c || d in s'.toLeft.ads;
      }
    }
    forall id | id in a && s.left.sent != {} ensures Coming(r, Flip(s'), id) {
      assert Coming(r, Flip(s), id);
    }
  }

  /** Arriving contents are stored and nothing is dropped, since all rows fit. */
  lemma AdStoresAll<K(!new), C(!new)>(r: Realm<K, C>, a: map<K, C>, b: map<K, C>, s: Duo<K, C>, c: C, out: Post<K, C>,
                                      s': Duo<K, C>)
    requires Fair(r, a, b) && Good(r, a, b, s) && Receives(r, s, Ad(c), out, s')
    ensures s'.left.rows == s.left.rows[r.keyOf(c) := c] && s'.left.sent == s.left.sent
  {
    var keys: seq<K> :| Truncates(r, Added(r, s.left, c), keys, s'.left);
    Convergence.StoredIsDrawn(WorldOf(r), a, b, s.left.rows, c);
    assert keys == [];
  }

  lemma ReceivingServes<K(!new), C(!new)>(r: Realm<K, C>, a: map<K, C>, b: map<K, C>, s: Duo<K, C>, m: Arrival<C>,
                                          out: Post<K, C>, s': Duo<K, C>)
    requires Fair(r, a, b) && Good(r, a, b, s) && Served(r, a, b, s) && Receives(r, s, m, out, s')
    requires m.Table? ==> Clear(r, s.left, s.toLeft.tables[m.i])
    ensures Served(r, a, b, s')
  {
    match m {
      case Poll => PollServes(r, a, b, s, out, s');
      case Table(i) => TableServes(r, a, b, s, i, out, s');
      case Get(i) =>
        RowsReadBack(r, a, b, s.left.rows);
        GetServes(r, a, b, s, i, out, s');
      case Ad(c) =>
        AdStoresAll(r, a, b, s, c, out, s');
        AdServes(r, a, b, s, c, out, s');
    }
  }

  /* ---------- whole exchanges ---------- */

  /** In this step the left node decodes no table that is not clear to it. */
  ghost predicate LeftClear<K(!new), C(!new)>(r: Realm<K, C>, s: Duo<K, C>, s': Duo<K, C>) {
    forall i: nat, out: Post<K, C> :: Receives(r, s, Table(i), out, s') ==> Clear(r, s.left, s.toLeft.tables[i])
  }

  ghost predicate ClearUpTo<K(!new), C(!new)>(r: Realm<K, C>, states: seq<Duo<K, C>>, i: nat) {
    forall j :: 0 <= j < i && j + 1 < |states| ==>
                  LeftClear(r, states[j], states[j + 1]) && LeftClear(r, Flip(states[j]), Flip(states[j + 1]))
  }

  lemma StepServes<K(!new), C(!new)>(r: Realm<K, C>, a: map<K, C>, b: map<K, C>, s: Duo<K, C>, s': Duo<K, C>)
    requires Fair(r, a, b) && Good(r, a, b, s) && Served(r, a, b, s) && Step(r, s, s')
    requires LeftClear(r, s, s') && LeftClear(r, Flip(s), Flip(s'))
    ensures Served(r, a, b, s')
  {
    if LeftReceives(r, s, s') {
      var m: Arrival<C>, out: Post<K, C> :| Receives(r, s, m, out, s');
      ReceivingServes(r, a, b, s, m, out, s');
    } else if LeftReceives(r, Flip(s), Flip(s')) {
      var m: Arrival<C>, out: Post<K, C> :| Receives(r, Flip(s), m, out, Flip(s'));
      FairFlips(r, a, b);
      assert Flip(Flip(s)) == s && Flip(Flip(s')) == s';
      ReceivingServes(r, b, a, Flip(s), m, out, Flip(s'));
    } else {
      PollingServes(r, a, b, s, s');
    }
  }

  lemma PollingServes<K(!new), C(!new)>(r: Realm<K, C>, a: map<K, C>, b: map<K, C>, s: Duo<K, C>, s': Duo<K, C>)
    requires Served(r, a, b, s) && (LeftPolls(s, s') || LeftPolls(Flip(s), Flip(s')))
    ensures Served(r, a, b, s')
  {
    forall id | id in b && s.right.sent != {} ensures Coming(r, s', id) {
      assert Coming(r, s, id);
    }
    forall id | id in a && s.left.sent != {} ensures Coming(r, Flip(s'), id) {
      assert Coming(r, Flip(s), id);
    }
  }

  lemma {:induction false} ClearExchangesServe<K(!new), C(!new)>(r: Realm<K, C>, a: map<K, C>, b: map<K, C>,
                                                                 states: seq<Duo<K, C>>, i: nat)
    requires Fair(r, a, b) && Run(r, a, b, states) && i < |states| && ClearUpTo(r, states, i)
    ensures Good(r, a, b, states[i]) && Served(r, a, b, states[i])
  {
    if i == 0 {
      BeginsGood(r, a, b, states[0]);
    } else {
      ClearExchangesServe(r, a, b, states, i - 1);
      var s, s' := states[i - 1], states[i];
      assert Step(r, s, s') && LeftClear(r, s, s') && LeftClear(r, Flip(s), Flip(s'));
      StepServes(r, a, b, s, s');
      StepGood(r, a, b, s, s');
    }
  }

  /**
   In every exchange of fair nodes, however its tables overlap: if every table that is decoded is near the own one and
   gives everything away, then no request fails, and when both have sent tables and nothing is on its way any more,
   both hold exactly the rows of both.
   */
  lemma ClearExchangesAgree<K(!new), C(!new)>(r: Realm<K, C>, a: map<K, C>, b: map<K, C>, states: seq<Duo<K, C>>,
                                              i: nat)
    requires Fair(r, a, b) && Run(r, a, b, states) && i < |states| && ClearUpTo(r, states, i)
    ensures LeftCanAnswer(states[i]) && LeftCanAnswer(Flip(states[i]))
    ensures Silent(states[i]) && states[i].left.sent != {} && states[i].right.sent != {} ==> Agreed(a, b, states[i])
  {
    ClearExchangesServe(r, a, b, states, i);
    if Silent(states[i]) && states[i].left.sent != {} && states[i].right.sent != {} {
      SilentHoldsAll(r, a, b, states[i]);
      SilentHoldsAll(r, b, a, Flip(states[i]));
    }
  }

  lemma SilentHoldsAll<K(!new), C(!new)>(r: Realm<K, C>, a: map<K, C>, b: map<K, C>, s: Duo<K, C>)
    requires Convergence.Drawn(a, b, s.left.rows) && Served(r, a, b, s) && Silent(s) && s.right.sent != {}
    ensures s.left.rows.Keys == a.Keys + b.Keys
  {
    DrawnKeys(a, b, s.left.rows);
    forall id | id in b ensures id in s.left.rows {
      assert Coming(r, s, id);
    }
  }
}
