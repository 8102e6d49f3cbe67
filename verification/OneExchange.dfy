/**
 Exchanges in which a node sends a table only when nothing of its previous one is on its way any more. Then no content
 arrives at a node that already holds it, which is the condition under which the cached tables of the nodes stay
 exact.
 */
module OneExchange {
  import opened SyncProtocol
  import opened Convergence

  /** A flow in which nothing is on its way twice. */
  ghost predicate OnceOk<K(!new), C(!new)>(w: World<K, C>, f: Flow<K, C>) {
    && |f.tables| + |f.gets| <= 1 && (|f.tables| + |f.gets| == 1 ==> f.ads == multiset{})
    && (forall ids :: ids in f.gets ==> ids !! f.rows.Keys)
    && (forall c :: c in f.ads ==> w.keyOf(c) !in f.rows && f.ads[c] == 1)
    && (forall c, d :: c in f.ads && d in f.ads && w.keyOf(c) == w.keyOf(d) ==> c == d)
  }

  lemma OnceDecoded<K(!new), C(!new)>(w: World<K, C>, f: Flow<K, C>, t: TableOf<K>, g: Flow<K, C>)
    requires OnceOk(w, f) && t in f.tables
    requires var wanted := Wanted(w, t, f.rows.Keys);
             g == f.(tables := f.tables - multiset{t}, missed := f.missed + ((t.keys - f.rows.Keys) - wanted),
             gets := if wanted == {} then f.gets else f.gets + multiset{wanted})
    ensures OnceOk(w, g)
  {
  }

  lemma OnceStored<K(!new), C(!new)>(w: World<K, C>, f: Flow<K, C>, c: C, g: Flow<K, C>)
    requires OnceOk(w, f) && c in f.ads
    requires g == f.(rows := f.rows[w.keyOf(c) := c], ads := f.ads - multiset{c})
    ensures OnceOk(w, g)
  {
  }

  lemma OnceAnswered<K(!new), C(!new)>(w: World<K, C>, f: Flow<K, C>, ids: set<K>, contents: set<C>, g: Flow<K, C>)
    requires OnceOk(w, f) && ids in f.gets
    requires forall c :: c in contents ==> w.keyOf(c) in ids
    requires forall c, d :: c in contents && d in contents && w.keyOf(c) == w.keyOf(d) ==> c == d
    requires g == f.(gets := f.gets - multiset{ids}, ads := f.ads + multiset(contents))
    ensures OnceOk(w, g)
  {
  }

  /** Nothing that flows from the right node to the left one is on its way. */
  ghost predicate Idle<K, C>(s: Pair<K, C>) {
    s.toLeft.tables == multiset{} && s.toRight.gets == multiset{} && s.toLeft.ads == multiset{}
  }

  /** In this step no node sends a table while something of an earlier one is on its way. */
  ghost predicate SendsWhenIdle<K, C>(s: Pair<K, C>, s': Pair<K, C>) {
    && (|s'.toRight.tables| > |s.toRight.tables| ==> Idle(Swap(s)))
    && (|s'.toLeft.tables| > |s.toLeft.tables| ==> Idle(s))
  }

  ghost predicate OnceInv<K(!new), C(!new)>(w: World<K, C>, s: Pair<K, C>) {
    OnceOk(w, FlowToLeft(s)) && OnceOk(w, FlowToLeft(Swap(s)))
  }

  lemma OncePoll<K(!new), C(!new)>(w: World<K, C>, s: Pair<K, C>, rest: Wire<K, C>, out: Wire<K, C>, s': Pair<K, C>)
    requires OnceInv(w, s) && SendsWhenIdle(s, s') && Receives(w, s, Poll, rest, out, s')
    ensures OnceInv(w, s')
  {
    PollFlows(w, s, rest, out, s');
    var f, g := FlowToLeft(Swap(s)), FlowToLeft(Swap(s'));
    if g != f {
      var size: nat :| g == f.(sent := true, tables := f.tables + multiset{TableOf(size, f.held)});
      assert |g.tables| == |f.tables| + 1;
    }
  }

  lemma OnceTable<K(!new), C(!new)>(w: World<K, C>, s: Pair<K, C>, t: TableOf<K>, rest: Wire<K, C>, out: Wire<K, C>,
                                    s': Pair<K, C>)
    requires OnceInv(w, s) && Receives(w, s, Table(t), rest, out, s')
    ensures OnceInv(w, s')
  {
    TableFlows(w, s, t, rest, out, s');
    OnceDecoded(w, FlowToLeft(s), t, FlowToLeft(s'));
  }

  lemma OnceGet<K(!new), C(!new)>(w: World<K, C>, a: map<K, C>, b: map<K, C>, s: Pair<K, C>, ids: set<K>,
                                  rest: Wire<K, C>, out: Wire<K, C>, s': Pair<K, C>)
    requires Acceptable(w, a) && Acceptable(w, b) && Drawn(a, b, s.left.rows)
    requires OnceInv(w, s) && Receives(w, s, Get(ids), rest, out, s')
    ensures OnceInv(w, s')
  {
    GetFlows(w, s, ids, rest, out, s');
    AnswerIsDrawn(w, b, a, ids, s.left.rows);
    OnceAnswered(w, FlowToLeft(Swap(s)), ids, ContentsOf(s.left.rows, ids), FlowToLeft(Swap(s')));
  }

  lemma OnceAd<K(!new), C(!new)>(w: World<K, C>, s: Pair<K, C>, c: C, rest: Wire<K, C>, out: Wire<K, C>, s': Pair<K, C>)
    requires w.accepts(c) && w.fits(Stored(w, s.left.rows, c))
    requires OnceInv(w, s) && Receives(w, s, Ad(c), rest, out, s')
    ensures OnceInv(w, s')
  {
    AdFlows(w, s, c, rest, out, s');
    OnceStored(w, FlowToLeft(s), c, FlowToLeft(s'));
  }

  lemma OnceReceiving<K(!new), C(!new)>(w: World<K, C>, a: map<K, C>, b: map<K, C>, s: Pair<K, C>, m: Message<K, C>,
                                        rest: Wire<K, C>, out: Wire<K, C>, s': Pair<K, C>)
    requires Setting(w, a, b) && FlowOk(w, a, b, FlowToLeft(s)) && OnceInv(w, s) && SendsWhenIdle(s, s')
    requires Receives(w, s, m, rest, out, s')
    ensures OnceInv(w, s')
  {
    match m {
      case Poll => OncePoll(w, s, rest, out, s');
      case Table(t) => OnceTable(w, s, t, rest, out, s');
      case Get(ids) => OnceGet(w, a, b, s, ids, rest, out, s');
      case Ad(c) =>
        assert c in FlowToLeft(s).ads;
        StoredIsDrawn(w, a, b, s.left.rows, c);
        OnceAd(w, s, c, rest, out, s');
    }
  }

  lemma OnceLeft<K(!new), C(!new)>(w: World<K, C>, a: map<K, C>, b: map<K, C>, s: Pair<K, C>, s': Pair<K, C>)
    requires Setting(w, a, b) && FlowOk(w, a, b, FlowToLeft(s)) && OnceInv(w, s) && SendsWhenIdle(s, s') &&
             LeftReceives(w, s, s')
    ensures OnceInv(w, s')
  {
    var m: Message<K, C>, rest: Wire<K, C>, out: Wire<K, C> :| Receives(w, s, m, rest, out, s');
    OnceReceiving(w, a, b, s, m, rest, out, s');
  }

  lemma OnceStep<K(!new), C(!new)>(w: World<K, C>, a: map<K, C>, b: map<K, C>, s: Pair<K, C>, s': Pair<K, C>)
    requires Setting(w, a, b) && Inv(w, a, b, s) && OnceInv(w, s) && SendsWhenIdle(s, s') && Step(w, s, s')
    ensures OnceInv(w, s')
  {
    if LeftReceives(w, s, s') {
      OnceLeft(w, a, b, s, s');
    } else if LeftReceives(w, Swap(s), Swap(s')) {
      SettingSwaps(w, a, b);
      OnceLeft(w, b, a, Swap(s), Swap(s'));
    } else {
      assert FlowToLeft(s') == FlowToLeft(s) && FlowToLeft(Swap(s')) == FlowToLeft(Swap(s));
    }
  }

  lemma {:induction false} OnceKeeps<K(!new), C(!new)>(w: World<K, C>, a: map<K, C>, b: map<K, C>,
                                                       states: seq<Pair<K, C>>, i: nat)
    requires Setting(w, a, b) && Run(w, a, b, states) && i < |states|
    requires forall j :: 0 <= j < |states| - 1 ==> SendsWhenIdle(states[j], states[j + 1])
    ensures Inv(w, a, b, states[i]) && OnceInv(w, states[i])
  {
    if i > 0 {
      OnceKeeps(w, a, b, states, i - 1);
      OnceAt(w, a, b, states[i - 1], states[i]);
    } else {
      OnceStart(w, a, b);
    }
  }

  lemma OnceStart<K(!new), C(!new)>(w: World<K, C>, a: map<K, C>, b: map<K, C>)
    requires Setting(w, a, b)
    ensures var s := Pair(Starting(a), Starting(b), Nothing(), Nothing());
            Inv(w, a, b, s) && OnceInv(w, s)
  {
    var s := Pair(Starting(a), Starting(b), Nothing(), Nothing());
    RunKeeps(w, a, b, [s], 0);
  }

  lemma OnceAt<K(!new), C(!new)>(w: World<K, C>, a: map<K, C>, b: map<K, C>, s: Pair<K, C>, s': Pair<K, C>)
    requires Setting(w, a, b) && Inv(w, a, b, s) && OnceInv(w, s) && SendsWhenIdle(s, s') && Step(w, s, s')
    ensures Inv(w, a, b, s') && OnceInv(w, s')
  {
    OnceStep(w, a, b, s, s');
    StepKeeps(w, a, b, s, s');
  }

  /**
   In every run in which tables are sent only when nothing of the previous one is on its way, a content never arrives
   at a node that holds its key already. So all additions are of new rows, which is what keeps the cached tables
   exact.
   */
  lemma ContentsAreFresh<K(!new), C(!new)>(w: World<K, C>, a: map<K, C>, b: map<K, C>, states: seq<Pair<K, C>>, i: nat)
    requires Setting(w, a, b) && Run(w, a, b, states) && i < |states|
    requires forall j :: 0 <= j < |states| - 1 ==> SendsWhenIdle(states[j], states[j + 1])
    ensures forall c :: c in states[i].toLeft.ads ==> w.keyOf(c) !in states[i].left.rows
    ensures forall c :: c in states[i].toRight.ads ==> w.keyOf(c) !in states[i].right.rows
  {
    OnceKeeps(w, a, b, states, i);
  }
}
