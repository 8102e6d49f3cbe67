/**
 Exchanges in which contents do arrive again: exactly when a cached table is worth what it says.
 */
module StaleTables {
  import opened Wrappers
  import opened Algebra
  import opened Difference
  import opened Caches
  import opened Exchange
  import opened Simulation

  /** A content arrives at the left node that holds it and caches a table of the size. */
  ghost predicate Again<K(!new), C(!new)>(r: Realm<K, C>, s: Duo<K, C>, s': Duo<K, C>, size: nat) {
    exists c: C, out: Post<K, C> :: Receives(r, s, Ad(c), out, s') && Hits(r, s.left, c, size)
  }

  ghost predicate Hits<K, C>(r: Realm<K, C>, n: Holder<K, C>, c: C, size: nat) {
    r.accepts(c) && r.keyOf(c) in n.rows && size in n.iblts
  }

  /** This happens in one of the first i steps. */
  ghost predicate AgainBefore<K(!new), C(!new)>(r: Realm<K, C>, states: seq<Duo<K, C>>, size: nat, i: nat)
    requires i < |states|
  {
    i > 0 && (AgainBefore(r, states, size, i - 1) || Again(r, states[i - 1], states[i], size))
  }

  /** The table of a size beside the rows of a node, with its surplus. */
  ghost predicate NodeSurplus<K, C>(r: Realm<K, C>, n: Holder<K, C>, size: nat, d: Net<K>, again: bool) {
    HasSurplus(r.p, size, Cached(n.iblts, size), n.rows.Keys, d, again)
  }

  /* ---------- one step ---------- */

  /** What arrives takes itself from the wire, so it can be told from the step. */
  lemma OnlyAdsTakeAds<K(!new), C(!new)>(r: Realm<K, C>, s: Duo<K, C>, s': Duo<K, C>, size: nat)
    requires s.toLeft.ads <= s'.toLeft.ads
    ensures !Again(r, s, s', size)
  {
  }

  lemma TheAd<K(!new), C(!new)>(r: Realm<K, C>, s: Duo<K, C>, c: C, out: Post<K, C>, s': Duo<K, C>, size: nat)
    requires Receives(r, s, Ad(c), out, s')
    ensures Again(r, s, s', size) <==> Hits(r, s.left, c, size)
  {
    if d: C, o: Post<K, C> :| Receives(r, s, Ad(d), o, s') && Hits(r, s.left, d, size) {
      assert (s.toLeft.ads - multiset{c})[c] == (s.toLeft.ads - multiset{d})[c];
    }
  }

  lemma AdSurplus<K(!new), C(!new)>(r: Realm<K, C>, n: Holder<K, C>, c: C, n': Holder<K, C>, out: Post<K, C>,
                                    size: nat, d: Net<K>, again: bool)
    returns (d': Net<K>)
    requires Lawful(r.p) && OnAd(r, n, c, n', out) && NodeSurplus(r, n, size, d, again)
    ensures NodeSurplus(r, n', size, d', again || Hits(r, n, c, size))
  {
    var keys: seq<K> :| Truncates(r, Added(r, n, c), keys, n');
    d' := AddedSurplus(r, n, c, size, d, again);
    DroppedSurplus(r, Added(r, n, c), keys, size, d', again || Hits(r, n, c, size));
  }

  lemma AddedSurplus<K(!new), C(!new)>(r: Realm<K, C>, n: Holder<K, C>, c: C, size: nat, d: Net<K>, again: bool)
    returns (d': Net<K>)
    requires Lawful(r.p) && NodeSurplus(r, n, size, d, again)
    ensures NodeSurplus(r, Added(r, n, c), size, d', again || Hits(r, n, c, size))
  {
    d' := d;
    if r.accepts(c) {
      d' := SurplusAfterAdd(r.p, size, Cached(n.iblts, size), n.rows.Keys, r.keyOf(c), d, again);
      assert Added(r, n, c).rows.Keys == n.rows.Keys + {r.keyOf(c)};
    }
  }

  lemma DroppedSurplus<K(!new), C(!new)>(r: Realm<K, C>, n: Holder<K, C>, keys: seq<K>, size: nat, d: Net<K>,
                                         again: bool)
    requires Lawful(r.p) && NodeSurplus(r, n, size, d, again) && Enumerates(keys, AllEntries(keys)) &&
             AllEntries(keys) <= n.rows.Keys
    ensures NodeSurplus(r, Dropped(r, n, keys), size, d, again)
  {
    SurplusAfterRemove(r.p, size, Cached(n.iblts, size), n.rows.Keys, keys, d, again);
    assert Dropped(r, n, keys).rows.Keys == n.rows.Keys - AllEntries(keys);
  }

  lemma ReceivingSurplus<K(!new), C(!new)>(r: Realm<K, C>, s: Duo<K, C>, m: Arrival<C>, out: Post<K, C>, s': Duo<K, C>,
                                           size: nat, d: Net<K>, again: bool)
    returns (d': Net<K>)
    requires Lawful(r.p) && Receives(r, s, m, out, s') && NodeSurplus(r, s.left, size, d, again)
    ensures NodeSurplus(r, s'.left, size, d', again || Again(r, s, s', size))
  {
    d' := d;
    if m.Ad? {
      TheAd(r, s, m.content, out, s', size);
      d' := AdSurplus(r, s.left, m.content, s'.left, out, size, d, again);
    } else {
      OnlyAdsTakeAds(r, s, s', size);
      LookingSurplus(r, s.left, s.toLeft, m, s'.left, s'.toLeft, out, size, d, again);
    }
  }

  lemma LookingSurplus<K(!new), C(!new)>(r: Realm<K, C>, n: Holder<K, C>, post: Post<K, C>, m: Arrival<C>,
                                         n': Holder<K, C>, rest: Post<K, C>,
                                         out: Post<K, C>, size: nat, d: Net<K>, again: bool)
    requires Lawful(r.p) && Handles(r, n, post, m, n', rest, out) && !m.Ad? && NodeSurplus(r, n, size, d, again)
    ensures NodeSurplus(r, n', size, d, again)
  {
    if m.Table? {
      SurplusAfterLookup(r.p, n.iblts, n.rows.Keys, |post.tables[m.i].table|, size, d, again);
    } else if m.Poll? && n'.iblts != n.iblts {
      var sent: nat :| SendsTable(r, n, sent, n', out);
      SurplusAfterLookup(r.p, n.iblts, n.rows.Keys, sent, size, d, again);
    }
  }

  lemma StepSurplus<K(!new), C(!new)>(r: Realm<K, C>, s: Duo<K, C>, s': Duo<K, C>, size: nat, d: Net<K>, again: bool)
    returns (d': Net<K>)
    requires Lawful(r.p) && Step(r, s, s') && NodeSurplus(r, s.left, size, d, again)
    ensures NodeSurplus(r, s'.left, size, d', again || Again(r, s, s', size))
  {
    if LeftReceives(r, s, s') {
      var m: Arrival<C>, out: Post<K, C> :| Receives(r, s, m, out, s');
      d' := ReceivingSurplus(r, s, m, out, s', size, d, again);
    } else {
      d' := d;
      OtherStep(r, s, s');
      OnlyAdsTakeAds(r, s, s', size);
    }
  }

  lemma OtherStep<K(!new), C(!new)>(r: Realm<K, C>, s: Duo<K, C>, s': Duo<K, C>)
    requires Step(r, s, s') && !LeftReceives(r, s, s')
    ensures s'.left.rows == s.left.rows && s'.left.iblts == s.left.iblts && s.toLeft.ads <= s'.toLeft.ads
  {
    if LeftReceives(r, Flip(s), Flip(s')) {
      var m: Arrival<C>, out: Post<K, C> :| Receives(r, Flip(s), m, out, Flip(s'));
    }
  }

  /* ---------- every run ---------- */

  lemma {:induction false} RunSurplus<K(!new), C(!new)>(r: Realm<K, C>, states: seq<Duo<K, C>>, size: nat, i: nat)
    returns (d: Net<K>)
    requires Lawful(r.p) && Path(r, states) && ExactNode(r, states[0].left) && i < |states|
    ensures NodeSurplus(r, states[i].left, size, d, AgainBefore(r, states, size, i))
  {
    if i == 0 {
      d := map[];
      NoSurplus(r.p, size, states[0].left.rows.Keys);
    } else {
      d := RunSurplus(r, states, size, i - 1);
      assert Step(r, states[i - 1], states[i]);
      d := StepSurplus(r, states[i - 1], states[i], size, d, AgainBefore(r, states, size, i - 1));
    }
  }

  /**
   In every exchange whatsoever, from exact tables on, a table the left node caches is exact if and only if no content
   has arrived at the node while it held it and cached that table. The right node is the left one of the flipped
   exchange.
   */
  lemma CachedExactly<K(!new), C(!new)>(r: Realm<K, C>, states: seq<Duo<K, C>>, size: nat, i: nat)
    requires Usable(r.p) && Path(r, states) && ExactNode(r, states[0].left) && i < |states| &&
             size in states[i].left.iblts
    ensures 0 < size
    ensures states[i].left.iblts[size] == TableOf(r.p, size, states[i].left.rows.Keys) <==>
            !AgainBefore(r, states, size, i)
  {
    var d := RunSurplus(r, states, size, i);
    ExactIffNotAgain(r.p, size, Cached(states[i].left.iblts, size), states[i].left.rows.Keys, d,
                     AgainBefore(r, states, size, i));
  }

  ghost function Flipped<K, C>(states: seq<Duo<K, C>>): seq<Duo<K, C>> {
    seq(|states|, i requires 0 <= i < |states| => Flip(states[i]))
  }

  lemma PathFlips<K(!new), C(!new)>(r: Realm<K, C>, states: seq<Duo<K, C>>)
    requires Path(r, states)
    ensures Path(r, Flipped(states))
  {
    forall i | 0 <= i < |states| - 1 ensures Step(r, Flipped(states)[i], Flipped(states)[i + 1]) {
      assert Step(r, states[i], states[i + 1]);
      assert Flip(Flip(states[i])) == states[i] && Flip(Flip(states[i + 1])) == states[i + 1];
    }
  }

  /** Both nodes have exact tables if and only if none of their cached tables was hit. */
  lemma NodesExactly<K(!new), C(!new)>(r: Realm<K, C>, states: seq<Duo<K, C>>, i: nat)
    requires Usable(r.p) && Path(r, states) && i < |states| && ExactNode(r, states[0].left) &&
             ExactNode(r, states[0].right)
    ensures ExactNode(r, states[i].left) <==>
            forall size :: size in states[i].left.iblts ==> !AgainBefore(r, states, size, i)
    ensures ExactNode(r, states[i].right) <==>
            forall size :: size in states[i].right.iblts ==> !AgainBefore(r, Flipped(states), size, i)
  {
    forall size | size in states[i].left.iblts
      ensures 0 < size && (states[i].left.iblts[size] == TableOf(r.p, size, states[i].left.rows.Keys) <==>
                           !AgainBefore(r, states, size, i))
    {
      CachedExactly(r, states, size, i);
    }
    PathFlips(r, states);
    forall size | size in states[i].right.iblts
      ensures 0 < size && (states[i].right.iblts[size] == TableOf(r.p, size, states[i].right.rows.Keys)
                           <==> !AgainBefore(r, Flipped(states), size, i))
    {
      CachedExactly(r, Flipped(states), size, i);
    }
  }
}
