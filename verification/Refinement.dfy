/**
 When the nodes of the system follow the protocol: as long as no content arrives at a node that holds it and caches
 tables, the cached tables stay exact and every step is a step of the protocol.
 */
module Refinement {
  import opened Wrappers
  import opened Algebra
  import opened Peeling
  import opened Listing
  import opened Difference
  import opened Caches
  import opened Exchange
  import P = SyncProtocol

  /* ---------- what a request holds ---------- */

  lemma {:induction false} RequestedAt<K(!new)>(entries: seq<Entry<K>>, i: nat, key: K)
    requires i <= |entries|
    ensures key in AllEntries(RequestOf(entries, i)) <==>
            exists j :: 0 <= j < i && entries[j].Inserted? && entries[j].key == key
  {
    if i > 0 {
      RequestedAt(entries, i - 1, key);
      var front, e := RequestOf(entries, i - 1), entries[i - 1];
      EntriesCongruent(front, front + [e.key], |front|);
    }
  }

  /** The request names keys once. */
  lemma {:induction false} RequestsOnce<K(!new)>(entries: seq<Entry<K>>, i: nat)
    requires i <= |entries| && ListsOnce(entries)
    ensures Enumerates(RequestOf(entries, i), AllEntries(RequestOf(entries, i)))
  {
    if i > 0 {
      RequestsOnce(entries, i - 1);
      if entries[i - 1].Inserted? {
        RequestedAt(entries, i - 1, entries[i - 1].key);
        EnumerateOneMore(RequestOf(entries, i - 1), AllEntries(RequestOf(entries, i - 1)), entries[i - 1].key);
      }
    }
  }

  /** What is requested from the difference of two sets: each key only the peer holds once, except those of the core. */
  lemma RequestIsExact<K(!new)>(p: Scheme<K>, t: Table<K>, theirs: set<K>, mine: set<K>, entries: seq<Entry<K>>,
                                clean: bool)
    requires Listable(p, t, Diff(theirs, mine)) && Lists(p, t, entries, clean)
    ensures var request := RequestOf(entries, |entries|);
            && Enumerates(request, AllEntries(request))
            && AllEntries(request) == (theirs - mine) - Core(p, |t|, Diff(theirs, mine).Keys)
  {
    ListingIsExact(p, t, Diff(theirs, mine), entries, clean);
    RequestsOnce(entries, |entries|);
    RequestedAre(entries, theirs, mine);
  }

  lemma RequestedAre<K(!new)>(entries: seq<Entry<K>>, theirs: set<K>, mine: set<K>)
    requires SignsMatch(entries, Diff(theirs, mine))
    ensures AllEntries(RequestOf(entries, |entries|)) == (theirs - mine) * KeysOf(entries)
  {
    forall key ensures key in AllEntries(RequestOf(entries, |entries|)) <==>
                       key in theirs - mine && key in KeysOf(entries) {
      RequestedAt(entries, |entries|, key);
    }
  }

  /* ---------- nodes and wires as the protocol sees them ---------- */

  ghost function WorldOf<K(!new), C>(r: Realm<K, C>): P.World<K, C> {
    P.World(r.keyOf, r.accepts, r.fits,
            (m: nat, theirs: set<K>, mine: set<K>) => Core(r.p, m, Diff(theirs, mine).Keys))
  }

  ghost function Images<A, B>(f: A -> B, s: seq<A>): multiset<B> {
    multiset(seq(|s|, i requires 0 <= i < |s| => f(s[i])))
  }

  lemma ImagesWithout<A, B>(f: A -> B, s: seq<A>, i: nat)
    requires i < |s|
    ensures f(s[i]) in Images(f, s) && Images(f, Without(s, i)) == Images(f, s) - multiset{f(s[i])}
  {
    assert s == s[..i] + ([s[i]] + s[i + 1..]);
    ImagesJoin(f, s[..i], [s[i]] + s[i + 1..]);
    ImagesJoin(f, [s[i]], s[i + 1..]);
    ImagesJoin(f, s[..i], s[i + 1..]);
    ImagesSmall(f, s[i]);
  }

  lemma ImagesJoin<A, B>(f: A -> B, s: seq<A>, t: seq<A>)
    ensures Images(f, s + t) == Images(f, s) + Images(f, t)
  {
    var a := seq(|s|, j requires 0 <= j < |s| => f(s[j]));
    var b := seq(|t|, j requires 0 <= j < |t| => f(t[j]));
    assert seq(|s + t|, j requires 0 <= j < |s + t| => f((s + t)[j])) == a + b;
  }

  lemma ImagesSmall<A, B>(f: A -> B, x: A)
    ensures Images(f, []) == multiset{} && Images(f, [x]) == multiset{f(x)}
  {
    assert seq(|[x]|, i requires 0 <= i < |[x]| => f([x][i])) == [f(x)];
  }

  lemma ImageIn<A, B>(f: A -> B, s: seq<A>, i: nat)
    requires i < |s|
    ensures f(s[i]) in Images(f, s) && |Images(f, s)| == |s|
  {
    ImagesWithout(f, s, i);
  }

  /** What a table stands for. */
  ghost function Label<K>(): Sent<K> -> P.TableOf<K> {
    (t: Sent<K>) => P.TableOf(|t.table|, t.keys)
  }

  ghost function Ids<K>(): seq<K> -> set<K> {
    (ids: seq<K>) => AllEntries(ids)
  }

  ghost function WireOf<K, C>(post: Post<K, C>): P.Wire<K, C> {
    P.Wire(post.polls, Images(Label(), post.tables), Images(Ids(), post.gets), post.ads)
  }

  lemma WiresJoin<K, C>(a: Post<K, C>, b: Post<K, C>)
    ensures WireOf(Join(a, b)) == P.Both(WireOf(a), WireOf(b))
  {
    ImagesJoin(Label(), a.tables, b.tables);
    ImagesJoin(Ids(), a.gets, b.gets);
  }

  lemma NoPostIsNothing<K, C>()
    ensures WireOf(NoPost<K, C>()) == P.Nothing()
  {
  }

  ghost function NodeOf<K, C>(n: Holder<K, C>, missed: set<K>): P.Node<K, C> {
    P.Node(n.rows, n.asked, n.sent != {}, missed)
  }

  /** The pair with a record of the keys that received tables did not give away. */
  ghost function PairOf<K, C>(s: Duo<K, C>, left: set<K>, right: set<K>): P.Pair<K, C> {
    P.Pair(NodeOf(s.left, left), NodeOf(s.right, right), WireOf(s.toLeft), WireOf(s.toRight))
  }

  /* ---------- each message is handled as in the protocol ---------- */

  lemma PollRefines<K(!new), C(!new)>(r: Realm<K, C>, s: Duo<K, C>, out: Post<K, C>, s': Duo<K, C>, ml: set<K>,
                                      mr: set<K>)
    requires Exact(r.p, s.left.iblts, s.left.rows.Keys) && Receives(r, s, Poll, out, s')
    ensures P.LeftReceives(WorldOf(r), PairOf(s, ml, mr), PairOf(s', ml, mr))
  {
    WiresJoin(s.toRight, out);
    PollAnswered(r, s.left, s'.left, out, ml);
    assert P.Receives(WorldOf(r), PairOf(s, ml, mr), P.Poll, WireOf(s'.toLeft), WireOf(out), PairOf(s', ml, mr));
  }

  lemma PollAnswered<K(!new), C(!new)>(r: Realm<K, C>, n: Holder<K, C>, n': Holder<K, C>, out: Post<K, C>,
                                       missed: set<K>)
    requires Exact(r.p, n.iblts, n.rows.Keys) && OnPoll(r, n, n', out)
    ensures P.OnPoll(NodeOf(n, missed), NodeOf(n', missed), WireOf(out))
  {
    NoPostIsNothing<K, C>();
    if n.asked && out != NoPost() {
      var size: nat :| SendsTable(r, n, size, n', out);
      LookupKeepsExact(r.p, n.iblts, n.rows.Keys, size);
      ImagesSmall(Label(), out.tables[0]);
      assert Label()(out.tables[0]) == P.TableOf(size, n.rows.Keys);
      assert size in n'.sent;
      assert WireOf(out) == P.Nothing<K, C>().(tables := multiset{P.TableOf(size, n.rows.Keys)});
    } else {
      NothingSent(r, n, n', out, missed);
    }
  }

  lemma NothingSent<K(!new), C(!new)>(r: Realm<K, C>, n: Holder<K, C>, n': Holder<K, C>, out: Post<K, C>,
                                      missed: set<K>)
    requires OnPoll(r, n, n', out) && (n.asked ==> out == NoPost())
    ensures P.OnPoll(NodeOf(n, missed), NodeOf(n', missed), WireOf(out))
  {
    if n.asked {
      assert !(exists size: nat :: SendsTable(r, n, size, n', out));
    }
  }

  /** The table is that of the keys recorded beside it, and of one of the sizes. */
  ghost predicate TrueTable<K, C>(r: Realm<K, C>, sizes: set<nat>, t: Sent<K>) {
    IsTableSize(|t.table|) && |t.table| in sizes && t.table == TableOf(r.p, |t.table|, t.keys)
  }

  /** A true table is decoded: what it gives away is requested, and what it does not is missed. */
  lemma TableDecodes<K(!new), C(!new)>(r: Realm<K, C>, n: Holder<K, C>, t: Sent<K>, n': Holder<K, C>, out: Post<K, C>,
                                       missed: set<K>)
    requires Lawful(r.p) && Exact(r.p, n.iblts, n.rows.Keys) && t.table == TableOf(r.p, |t.table|, t.keys)
    requires NoFalsePurity(r.p, |t.table|, Diff(t.keys, n.rows.Keys)) && OnTable(r, n, t.table, n', out)
    ensures Exact(r.p, n'.iblts, n'.rows.Keys) && n' == n.(iblts := n'.iblts)
    ensures NameOnce(out.gets)
    ensures out.polls == 0 && out.tables == [] && out.ads == multiset{}
    ensures P.OnTable(WorldOf(r), NodeOf(n, missed), Label()(t), NodeOf(n', MissedNow(r, n, t, missed)), WireOf(out))
  {
    var entries: seq<Entry<K>>, clean: bool :| Decodes(r, n, t.table, entries, clean, n', out);
    RequestDecoded(r, n, t, entries, clean, n', out);
    assert NameOnce(out.gets) by {
      OneNamesOnce(RequestOf(entries, |entries|));
    }
    RequestSent(r, n, t, n', RequestOf(entries, |entries|), out, missed);
  }

  /** Each request names keys once. */
  ghost predicate NameOnce<K>(gets: seq<seq<K>>) {
    forall i :: 0 <= i < |gets| ==> Enumerates(gets[i], AllEntries(gets[i]))
  }

  lemma OneNamesOnce<K>(request: seq<K>)
    requires Enumerates(request, AllEntries(request))
    ensures NameOnce([request]) && NameOnce<K>([])
  {
  }

  lemma RequestDecoded<K(!new), C(!new)>(r: Realm<K, C>, n: Holder<K, C>, t: Sent<K>, entries: seq<Entry<K>>,
                                         clean: bool,
                                         n': Holder<K, C>, out: Post<K, C>)
    requires Lawful(r.p) && Exact(r.p, n.iblts, n.rows.Keys) && t.table == TableOf(r.p, |t.table|, t.keys)
    requires NoFalsePurity(r.p, |t.table|, Diff(t.keys, n.rows.Keys)) && Decodes(r, n, t.table, entries, clean, n', out)
    ensures Exact(r.p, n'.iblts, n'.rows.Keys)
    ensures var request := RequestOf(entries, |entries|);
            && Enumerates(request, AllEntries(request))
            && AllEntries(request) == P.Wanted(WorldOf(r), Label()(t), n.rows.Keys)
  {
    LookupKeepsExact(r.p, n.iblts, n.rows.Keys, |t.table|);
    TablesSubtract(r.p, |t.table|, t.keys, n.rows.Keys);
    RequestIsExact(r.p, Subtracted(r.p, t.table, n'.iblts[|t.table|]), t.keys, n.rows.Keys, entries, clean);
  }

  /** The keys missed after a table was received. */
  ghost function MissedNow<K(!new), C>(r: Realm<K, C>, n: Holder<K, C>, t: Sent<K>, missed: set<K>): set<K> {
    missed + ((t.keys - n.rows.Keys) - P.Wanted(WorldOf(r), Label()(t), n.rows.Keys))
  }

  lemma RequestSent<K(!new), C(!new)>(r: Realm<K, C>, n: Holder<K, C>, t: Sent<K>, n': Holder<K, C>, request: seq<K>,
                                      out: Post<K, C>, missed: set<K>)
    requires n' == n.(iblts := n'.iblts)
    requires AllEntries(request) == P.Wanted(WorldOf(r), Label()(t), n.rows.Keys)
    requires out == if request == [] then NoPost() else NoPost<K, C>().(gets := [request])
    ensures P.OnTable(WorldOf(r), NodeOf(n, missed), Label()(t), NodeOf(n', MissedNow(r, n, t, missed)), WireOf(out))
  {
    if request == [] {
      NoPostIsNothing<K, C>();
    } else {
      EntriesHold(request, |request|, 0);
      ImagesSmall(Ids(), request);
      assert Ids()(request) == AllEntries(request);
      ImagesSmall(Label<K>(), t);
    }
  }

  lemma TableRefines<K(!new), C(!new)>(r: Realm<K, C>, s: Duo<K, C>, i: nat, out: Post<K, C>, s': Duo<K, C>,
                                       ml: set<K>, mr: set<K>)
    requires Lawful(r.p) && Exact(r.p, s.left.iblts, s.left.rows.Keys) && Receives(r, s, Table(i), out, s')
    requires var t := s.toLeft.tables[i];
             t.table == TableOf(r.p, |t.table|, t.keys) && NoFalsePurity(r.p, |t.table|, Diff(t.keys, s.left.rows.Keys))
    ensures P.LeftReceives(WorldOf(r), PairOf(s, ml, mr), PairOf(s', MissedNow(r, s.left, s.toLeft.tables[i], ml), mr))
  {
    var t := s.toLeft.tables[i];
    TableDecodes(r, s.left, t, s'.left, out, ml);
    WiresJoin(s.toRight, out);
    ImagesWithout(Label(), s.toLeft.tables, i);
    assert P.Receives(WorldOf(r), PairOf(s, ml, mr), P.Table(Label()(t)), WireOf(s'.toLeft), WireOf(out),
                      PairOf(s', MissedNow(r, s.left, t, ml), mr));
  }

  /** The rows are stored under their keys, can be read and read back as they were stored. */
  ghost predicate ReadsBack<K, C>(r: Realm<K, C>, rows: map<K, C>) {
    forall id :: id in rows ==>
                   r.keyOf(rows[id]) == id && r.readable(rows[id]) && r.reread(rows[id]) == rows[id]
  }

  lemma GetRefines<K(!new), C(!new)>(r: Realm<K, C>, s: Duo<K, C>, i: nat, out: Post<K, C>, s': Duo<K, C>, ml: set<K>,
                                     mr: set<K>)
    requires Receives(r, s, Get(i), out, s') && ReadsBack(r, s.left.rows)
    requires Enumerates(s.toLeft.gets[i], AllEntries(s.toLeft.gets[i]))
    ensures P.LeftReceives(WorldOf(r), PairOf(s, ml, mr), PairOf(s', ml, mr))
  {
    var ids := s.toLeft.gets[i];
    GetAnswered(r, s.left, ids, s'.left, out, ml);
    WiresJoin(s.toRight, out);
    ImagesWithout(Ids(), s.toLeft.gets, i);
    assert P.Receives(WorldOf(r), PairOf(s, ml, mr), P.Get(Ids()(ids)), WireOf(s'.toLeft), WireOf(out),
                      PairOf(s', ml, mr));
  }

  lemma GetAnswered<K(!new), C(!new)>(r: Realm<K, C>, n: Holder<K, C>, ids: seq<K>, n': Holder<K, C>, out: Post<K, C>,
                                      missed: set<K>)
    requires OnGet(r, n, ids, n', out) && ReadsBack(r, n.rows) && Enumerates(ids, AllEntries(ids))
    ensures P.OnGet(NodeOf(n, missed), Ids()(ids), NodeOf(n', missed), WireOf(out))
  {
    var contents := Answers(r.reread, n.rows, ids);
    P.AnswerContents(r.keyOf, n.rows, ids, contents, |ids|);
    assert contents[..|ids|] == contents;
    forall id | id in AllEntries(ids) ensures id in n.rows {
      var j := EntryAt(ids, |ids|, id);
    }
  }

  lemma AdRefines<K(!new), C(!new)>(r: Realm<K, C>, s: Duo<K, C>, c: C, out: Post<K, C>, s': Duo<K, C>, ml: set<K>,
                                    mr: set<K>)
    requires Receives(r, s, Ad(c), out, s')
    ensures P.LeftReceives(WorldOf(r), PairOf(s, ml, mr), PairOf(s', ml, mr))
  {
    WiresJoin(s.toRight, out);
    NoPostIsNothing<K, C>();
    AdStored(r, s.left, c, s'.left, out, ml);
    assert P.Receives(WorldOf(r), PairOf(s, ml, mr), P.Ad(c), WireOf(s'.toLeft), WireOf(out), PairOf(s', ml, mr));
  }

  lemma AdStored<K(!new), C(!new)>(r: Realm<K, C>, n: Holder<K, C>, c: C, n': Holder<K, C>, out: Post<K, C>,
                                   missed: set<K>)
    requires OnAd(r, n, c, n', out)
    ensures P.OnAd(WorldOf(r), NodeOf(n, missed), c, NodeOf(n', missed), P.Nothing())
  {
    var keys: seq<K> :| Truncates(r, Added(r, n, c), keys, n');
    assert Added(r, n, c).rows == P.Stored(WorldOf(r), n.rows, c);
    assert keys == [] ==> n'.rows == Added(r, n, c).rows;
  }
}
