/**
 Where the exchange of two nodes leads. Whatever the order of deliveries, no node is asked for a row it
 does not hold, and when no message is left, each node that was sent a table holds all rows of both but those that the
 tables did not give away.
 */
module Convergence {
  import opened SyncProtocol

  /** Rows that a node would accept again under their own key. */
  ghost predicate Acceptable<K, C>(w: World<K, C>, rows: map<K, C>) {
    forall id :: id in rows ==> w.keyOf(rows[id]) == id && w.accepts(rows[id])
  }

  ghost predicate OneOf<K, C>(a: map<K, C>, b: map<K, C>, id: K, c: C) {
    (id in a && c == a[id]) || (id in b && c == b[id])
  }

  /** Every row is one of the rows the nodes started with. */
  ghost predicate Drawn<K, C>(a: map<K, C>, b: map<K, C>, rows: map<K, C>) {
    forall id :: id in rows ==> OneOf(a, b, id, rows[id])
  }

  /** The nodes start with acceptable rows, and all of them together fit the limit of either node. */
  ghost predicate Setting<K(!new), C(!new)>(w: World<K, C>, a: map<K, C>, b: map<K, C>) {
    && Acceptable(w, a) && Acceptable(w, b)
    && forall rows: map<K, C> :: Drawn(a, b, rows) ==> w.fits(rows)
  }

  /** The rows that flow from a sender to a receiver: what each has, and the messages between them that matter. */
  datatype Flow<!K, !C> = Flow(
    rows: map<K, C>, missed: set<K>,
    held: set<K>, sent: bool,
    tables: multiset<TableOf<K>>, gets: multiset<set<K>>, ads: multiset<C>)

  /** The flow from the right node to the left one. */
  function FlowToLeft<K, C>(s: Pair<K, C>): Flow<K, C> {
    Flow(s.left.rows, s.left.missed, s.right.rows.Keys, s.right.sent, s.toLeft.tables, s.toRight.gets, s.toLeft.ads)
  }

  /** A row of the sender has reached the receiver, or is on its way, or was not given away. */
  ghost predicate Covered<K(!new), C(!new)>(w: World<K, C>, f: Flow<K, C>, id: K) {
    || id in f.rows || id in f.missed
    || (exists t :: t in f.tables && id in t.keys)
    || (exists ids :: ids in f.gets && id in ids)
    || (exists c :: c in f.ads && w.keyOf(c) == id)
  }

  /** The receiver started with `a` and the sender with `b`. */
  ghost predicate FlowOk<K(!new), C(!new)>(w: World<K, C>, a: map<K, C>, b: map<K, C>, f: Flow<K, C>) {
    && a.Keys <= f.rows.Keys && Drawn(a, b, f.rows)
    && (forall t :: t in f.tables ==> b.Keys <= t.keys <= f.held)
    && (forall ids :: ids in f.gets ==> ids <= f.held)
    && (forall c :: c in f.ads ==> OneOf(a, b, w.keyOf(c), c))
    && (f.sent ==> forall id :: id in b ==> Covered(w, f, id))
  }

  ghost predicate Inv<K(!new), C(!new)>(w: World<K, C>, a: map<K, C>, b: map<K, C>, s: Pair<K, C>) {
    FlowOk(w, a, b, FlowToLeft(s)) && FlowOk(w, b, a, FlowToLeft(Swap(s)))
  }

  /* ---------- how a flow changes ---------- */

  /** The receiver decodes a table and requests what it gives away. */
  lemma TableDecoded<K(!new), C(!new)>(w: World<K, C>, a: map<K, C>, b: map<K, C>, f: Flow<K, C>, t: TableOf<K>,
                                       g: Flow<K, C>)
    requires FlowOk(w, a, b, f) && t in f.tables
    requires var wanted := Wanted(w, t, f.rows.Keys);
             g == f.(tables := f.tables - multiset{t}, missed := f.missed + ((t.keys - f.rows.Keys) - wanted),
             gets := if wanted == {} then f.gets else f.gets + multiset{wanted})
    ensures FlowOk(w, a, b, g)
  {
  }

  /** The receiver stores a content. */
  lemma AdStored<K(!new), C(!new)>(w: World<K, C>, a: map<K, C>, b: map<K, C>, f: Flow<K, C>, c: C, g: Flow<K, C>)
    requires FlowOk(w, a, b, f) && c in f.ads
    requires g == f.(rows := f.rows[w.keyOf(c) := c], ads := f.ads - multiset{c})
    ensures FlowOk(w, a, b, g)
  {
    if f.sent {
      forall id | id in b ensures Covered(w, g, id) {
        assert Covered(w, f, id);
        if d :| d in f.ads && w.keyOf(d) == id {
          assert d == c || d in g.ads;
        }
      }
    }
  }

  /** The sender sends the table of all its keys. */
  lemma TableSent<K(!new), C(!new)>(w: World<K, C>, a: map<K, C>, b: map<K, C>, f: Flow<K, C>, size: nat, g: Flow<K, C>)
    requires FlowOk(w, a, b, f) && b.Keys <= f.held
    requires g == f.(sent := true, tables := f.tables + multiset{TableOf(size, f.held)})
    ensures FlowOk(w, a, b, g)
  {
  }

  /** The contents sent for a request are rows of the two nodes, and there is one for every key asked for. */
  lemma AnswerIsDrawn<K(!new), C(!new)>(w: World<K, C>, a: map<K, C>, b: map<K, C>, ids: set<K>, rows: map<K, C>)
    requires Acceptable(w, a) && Acceptable(w, b) && Drawn(b, a, rows) && ids <= rows.Keys
    ensures forall c :: c in ContentsOf(rows, ids) ==> OneOf(a, b, w.keyOf(c), c)
    ensures forall id :: id in ids ==> rows[id] in ContentsOf(rows, ids) && w.keyOf(rows[id]) == id
  {
  }

  /** The sender answers a request. */
  lemma GetAnswered<K(!new), C(!new)>(w: World<K, C>, a: map<K, C>, b: map<K, C>, f: Flow<K, C>, ids: set<K>,
                                      contents: set<C>, g: Flow<K, C>)
    requires FlowOk(w, a, b, f) && ids in f.gets
    requires forall c :: c in contents ==> OneOf(a, b, w.keyOf(c), c)
    requires forall id :: id in ids ==> exists c :: c in contents && w.keyOf(c) == id
    requires g == f.(gets := f.gets - multiset{ids}, ads := f.ads + multiset(contents))
    ensures FlowOk(w, a, b, g)
  {
  }

  /** The sender holds more. */
  lemma SenderGrows<K(!new), C(!new)>(w: World<K, C>, a: map<K, C>, b: map<K, C>, f: Flow<K, C>, held: set<K>)
    requires FlowOk(w, a, b, f) && f.held <= held
    ensures FlowOk(w, a, b, f.(held := held))
  {
  }

  /* ---------- the left node receives a message ---------- */

  lemma PollFlows<K(!new), C(!new)>(w: World<K, C>, s: Pair<K, C>, rest: Wire<K, C>, out: Wire<K, C>, s': Pair<K, C>)
    requires Receives(w, s, Poll, rest, out, s')
    ensures FlowToLeft(s') == FlowToLeft(s)
    ensures var f, g := FlowToLeft(Swap(s)), FlowToLeft(Swap(s'));
            g == f || exists size: nat :: g == f.(sent := true, tables := f.tables + multiset{TableOf(size, f.held)})
  {
    var n := s.left;
    if size: nat :| n.asked && 0 < size && s'.left.sent &&
                    out == Nothing<K, C>().(tables := multiset{TableOf(size, n.rows.Keys)}) {
      TableOnWire(s, s', size);
    } else {
      assert out.tables == multiset{} && out.gets == multiset{} && out.ads == multiset{};
      assert s'.toRight.tables == s.toRight.tables;
    }
  }

  lemma TableOnWire<K(!new), C(!new)>(s: Pair<K, C>, s': Pair<K, C>, size: nat)
    requires s'.left == s.left.(asked := false, sent := true) && s'.right == s.right
    requires s'.toLeft == s.toLeft.(polls := s'.toLeft.polls)
    requires s'.toRight == Both(s.toRight, Nothing<K, C>().(tables := multiset{TableOf(size, s.left.rows.Keys)}))
    ensures FlowToLeft(s') == FlowToLeft(s)
    ensures var f, g := FlowToLeft(Swap(s)), FlowToLeft(Swap(s'));
            g == f.(sent := true, tables := f.tables + multiset{TableOf(size, f.held)})
  {
  }

  lemma TableFlows<K(!new), C(!new)>(w: World<K, C>, s: Pair<K, C>, t: TableOf<K>, rest: Wire<K, C>, out: Wire<K, C>,
                                     s': Pair<K, C>)
    requires Receives(w, s, Table(t), rest, out, s')
    ensures FlowToLeft(Swap(s')) == FlowToLeft(Swap(s))
    ensures var f, g, wanted := FlowToLeft(s), FlowToLeft(s'), Wanted(w, t, s.left.rows.Keys);
            && t in f.tables
            && g == f.(tables := f.tables - multiset{t}, missed := f.missed + ((t.keys - f.rows.Keys) - wanted),
                    gets := if wanted == {} then f.gets else f.gets + multiset{wanted})
  {
  }

  lemma GetFlows<K(!new), C(!new)>(w: World<K, C>, s: Pair<K, C>, ids: set<K>, rest: Wire<K, C>, out: Wire<K, C>,
                                   s': Pair<K, C>)
    requires Receives(w, s, Get(ids), rest, out, s')
    ensures FlowToLeft(s') == FlowToLeft(s) && ids <= s.left.rows.Keys
    ensures var f, g := FlowToLeft(Swap(s)), FlowToLeft(Swap(s'));
            && ids in f.gets
            && g == f.(gets := f.gets - multiset{ids}, ads := f.ads + multiset(ContentsOf(s.left.rows, ids)))
  {
  }

  lemma AdFlows<K(!new), C(!new)>(w: World<K, C>, s: Pair<K, C>, c: C, rest: Wire<K, C>, out: Wire<K, C>,
                                  s': Pair<K, C>)
    requires Receives(w, s, Ad(c), rest, out, s') && w.accepts(c) && w.fits(Stored(w, s.left.rows, c))
    ensures var f, g := FlowToLeft(s), FlowToLeft(s');
            c in f.ads && g == f.(rows := f.rows[w.keyOf(c) := c], ads := f.ads - multiset{c})
    ensures FlowToLeft(Swap(s')) == FlowToLeft(Swap(s)).(held := s.left.rows.Keys + {w.keyOf(c)})
  {
  }

  lemma PollKeeps<K(!new), C(!new)>(w: World<K, C>, a: map<K, C>, b: map<K, C>, s: Pair<K, C>, rest: Wire<K, C>,
                                    out: Wire<K, C>, s': Pair<K, C>)
    requires Inv(w, a, b, s) && Receives(w, s, Poll, rest, out, s')
    ensures Inv(w, a, b, s')
  {
    PollFlows(w, s, rest, out, s');
    var f, g := FlowToLeft(Swap(s)), FlowToLeft(Swap(s'));
    if g != f {
      var size: nat :| g == f.(sent := true, tables := f.tables + multiset{TableOf(size, f.held)});
      TableSent(w, b, a, f, size, g);
    }
  }

  lemma TableKeeps<K(!new), C(!new)>(w: World<K, C>, a: map<K, C>, b: map<K, C>, s: Pair<K, C>, t: TableOf<K>,
                                     rest: Wire<K, C>, out: Wire<K, C>, s': Pair<K, C>)
    requires Inv(w, a, b, s) && Receives(w, s, Table(t), rest, out, s')
    ensures Inv(w, a, b, s')
  {
    TableFlows(w, s, t, rest, out, s');
    TableDecoded(w, a, b, FlowToLeft(s), t, FlowToLeft(s'));
  }

  lemma GetKeeps<K(!new), C(!new)>(w: World<K, C>, a: map<K, C>, b: map<K, C>, s: Pair<K, C>, ids: set<K>,
                                   rest: Wire<K, C>, out: Wire<K, C>, s': Pair<K, C>)
    requires Setting(w, a, b) && Inv(w, a, b, s) && Receives(w, s, Get(ids), rest, out, s')
    ensures Inv(w, a, b, s')
  {
    GetFlows(w, s, ids, rest, out, s');
    AnswerIsDrawn(w, b, a, ids, s.left.rows);
    GetAnswered(w, b, a, FlowToLeft(Swap(s)), ids, ContentsOf(s.left.rows, ids), FlowToLeft(Swap(s')));
  }

  lemma AdKeeps<K(!new), C(!new)>(w: World<K, C>, a: map<K, C>, b: map<K, C>, s: Pair<K, C>, c: C, rest: Wire<K, C>,
                                  out: Wire<K, C>, s': Pair<K, C>)
    requires Setting(w, a, b) && Inv(w, a, b, s) && Receives(w, s, Ad(c), rest, out, s')
    ensures Inv(w, a, b, s')
  {
    assert c in FlowToLeft(s).ads;
    StoredIsDrawn(w, a, b, s.left.rows, c);
    AdFlows(w, s, c, rest, out, s');
    AdStored(w, a, b, FlowToLeft(s), c, FlowToLeft(s'));
    SenderGrows(w, b, a, FlowToLeft(Swap(s)), s.left.rows.Keys + {w.keyOf(c)});
  }

  /** Truncation has nothing to drop as long as all rows come from the two nodes. */
  lemma StoredIsDrawn<K(!new), C(!new)>(w: World<K, C>, a: map<K, C>, b: map<K, C>, rows: map<K, C>, c: C)
    requires Setting(w, a, b) && Drawn(a, b, rows) && OneOf(a, b, w.keyOf(c), c)
    ensures w.accepts(c) && Drawn(a, b, Stored(w, rows, c)) && w.fits(Stored(w, rows, c))
  {
  }

  lemma ReceivingKeeps<K(!new), C(!new)>(w: World<K, C>, a: map<K, C>, b: map<K, C>, s: Pair<K, C>, m: Message<K, C>,
                                         rest: Wire<K, C>, out: Wire<K, C>, s': Pair<K, C>)
    requires Setting(w, a, b) && Inv(w, a, b, s) && Receives(w, s, m, rest, out, s')
    ensures Inv(w, a, b, s')
  {
    match m {
      case Poll => PollKeeps(w, a, b, s, rest, out, s');
      case Table(t) => TableKeeps(w, a, b, s, t, rest, out, s');
      case Get(ids) => GetKeeps(w, a, b, s, ids, rest, out, s');
      case Ad(c) => AdKeeps(w, a, b, s, c, rest, out, s');
    }
  }

  lemma SettingSwaps<K(!new), C(!new)>(w: World<K, C>, a: map<K, C>, b: map<K, C>)
    requires Setting(w, a, b)
    ensures Setting(w, b, a)
  {
  }

  lemma StepKeeps<K(!new), C(!new)>(w: World<K, C>, a: map<K, C>, b: map<K, C>, s: Pair<K, C>, s': Pair<K, C>)
    requires Setting(w, a, b) && Inv(w, a, b, s) && Step(w, s, s')
    ensures Inv(w, a, b, s')
  {
    if LeftReceives(w, s, s') {
      var m: Message<K, C>, rest: Wire<K, C>, out: Wire<K, C> :| Receives(w, s, m, rest, out, s');
      ReceivingKeeps(w, a, b, s, m, rest, out, s');
    } else if LeftReceives(w, Swap(s), Swap(s')) {
      var m: Message<K, C>, rest: Wire<K, C>, out: Wire<K, C> :| Receives(w, Swap(s), m, rest, out, Swap(s'));
      SettingSwaps(w, a, b);
      ReceivingKeeps(w, b, a, Swap(s), m, rest, out, Swap(s'));
    } else {
      assert FlowToLeft(s') == FlowToLeft(s) && FlowToLeft(Swap(s')) == FlowToLeft(Swap(s));
    }
  }

  /* ---------- runs ---------- */

  function Starting<K, C>(rows: map<K, C>): Node<K, C> {
    Node(rows, false, false, {})
  }

  /** A run from rows `a` and `b` with nothing in flight. */
  ghost predicate Run<K(!new), C(!new)>(w: World<K, C>, a: map<K, C>, b: map<K, C>, states: seq<Pair<K, C>>) {
    && states != [] && states[0] == Pair(Starting(a), Starting(b), Nothing(), Nothing())
    && forall i :: 0 <= i < |states| - 1 ==> Step(w, states[i], states[i + 1])
  }

  lemma {:induction false} RunKeeps<K(!new), C(!new)>(w: World<K, C>, a: map<K, C>, b: map<K, C>,
                                                      states: seq<Pair<K, C>>, i: nat)
    requires Setting(w, a, b) && Run(w, a, b, states) && i < |states|
    ensures Inv(w, a, b, states[i])
  {
    if i > 0 {
      RunKeeps(w, a, b, states, i - 1);
      StepKeeps(w, a, b, states[i - 1], states[i]);
    }
  }

  /** In every run no node is ever asked for a row that it does not hold. */
  lemma NoRequestFails<K(!new), C(!new)>(w: World<K, C>, a: map<K, C>, b: map<K, C>, states: seq<Pair<K, C>>, i: nat)
    requires Setting(w, a, b) && Run(w, a, b, states) && i < |states|
    ensures forall ids :: ids in states[i].toLeft.gets ==> ids <= states[i].left.rows.Keys
    ensures forall ids :: ids in states[i].toRight.gets ==> ids <= states[i].right.rows.Keys
  {
    RunKeeps(w, a, b, states, i);
  }

  ghost predicate Silent<K, C>(s: Pair<K, C>) {
    s.toLeft == Nothing() && s.toRight == Nothing()
  }

  /**
   In every run, when no message is left: a node that was sent a table holds the rows of both nodes
   except those it missed, and no node holds anything else.
   */
  lemma SilenceMeansAgreement<K(!new), C(!new)>(w: World<K, C>, a: map<K, C>, b: map<K, C>, states: seq<Pair<K, C>>,
                                                i: nat)
    requires Setting(w, a, b) && Run(w, a, b, states) && i < |states| && Silent(states[i])
    ensures var s := states[i];
            && s.left.rows.Keys <= a.Keys + b.Keys && s.right.rows.Keys <= a.Keys + b.Keys
            && (s.right.sent ==> (a.Keys + b.Keys) - s.left.missed <= s.left.rows.Keys)
            && (s.left.sent ==> (a.Keys + b.Keys) - s.right.missed <= s.right.rows.Keys)
            && (s.left.sent && s.right.sent && s.left.missed == {} && s.right.missed == {} ==>
                  s.left.rows.Keys == a.Keys + b.Keys == s.right.rows.Keys)
  {
    RunKeeps(w, a, b, states, i);
    HalfAgreement(w, a, b, states[i]);
    HalfAgreement(w, b, a, Swap(states[i]));
  }

  lemma HalfAgreement<K(!new), C(!new)>(w: World<K, C>, a: map<K, C>, b: map<K, C>, s: Pair<K, C>)
    requires FlowOk(w, a, b, FlowToLeft(s)) && Silent(s)
    ensures s.left.rows.Keys <= a.Keys + b.Keys
    ensures s.right.sent ==> (a.Keys + b.Keys) - s.left.missed <= s.left.rows.Keys
  {
  }
}
